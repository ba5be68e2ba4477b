/** The cost ledger behind the fleet score, internal/report/score_attribution.go: every term, what it cost
    after its cap, and the findings and clusters that pay for it. The ledger object is filled term by term,
    and keeps its entries in balance with its terms. */
module ScoreLedger {
  import opened FieldTable
  import opened Findings

  const PER_CRITICAL := 6.0
  const PER_WARNING := 1.5
  const PER_INFO := 0.25
  const CRITICAL_CAP := 36.0
  const WARNING_CAP := 24.0
  const INFO_CAP := 5.0
  const CRITICAL_FLEET := 20.0
  const DEGRADED_FLEET := 10.0
  const VERSION_CRITICAL := 10.0
  const VERSION_WARNING := 3.0
  const WORST_NODE_CAP := 10.0

  datatype TermName =
    CriticalFindings | WarningFindings | InfoFindings | CriticalClusters | DegradedClusters | VersionSkew | WorstNode

  datatype Term = Term(name: TermName, count: nat, raw: real, limit: real, cost: real)

  /** One contribution to a term; rule and cluster are empty when the cost is tied to none. */
  datatype Entry = Entry(term: TermName, rule: string, cluster: string, raw: real, cost: real)

  // ----- Sums

  ghost function Raw(es: seq<Entry>): real {
    if es == [] then 0.0 else Raw(es[..|es| - 1]) + es[|es| - 1].raw
  }

  /** The cost of the entries selected. */
  ghost function CostOf(es: seq<Entry>, selected: Entry -> bool): real {
    if es == [] then 0.0
    else CostOf(es[..|es| - 1], selected) + if selected(es[|es| - 1]) then es[|es| - 1].cost else 0.0
  }

  ghost function Everything(): Entry -> bool {
    e => true
  }

  ghost function OfTerm(name: TermName): Entry -> bool {
    (e: Entry) => e.term == name
  }

  ghost function Under(key: Entry -> string, k: string): Entry -> bool {
    (e: Entry) => key(e) == k
  }

  ghost function TermCosts(ts: seq<Term>): real {
    if ts == [] then 0.0 else TermCosts(ts[..|ts| - 1]) + ts[|ts| - 1].cost
  }

  lemma {:induction false} CostConcat(a: seq<Entry>, b: seq<Entry>, selected: Entry -> bool)
    ensures CostOf(a + b, selected) == CostOf(a, selected) + CostOf(b, selected)
  {
    if b == [] {
      assert a + b == a;
    } else {
      CostConcat(a, b[..|b| - 1], selected);
      assert (a + b)[..|a + b| - 1] == a + b[..|b| - 1];
    }
  }

  lemma {:induction false} CostSame(es: seq<Entry>, p: Entry -> bool, q: Entry -> bool)
    requires forall e :: e in es ==> (p(e) <==> q(e))
    ensures CostOf(es, p) == CostOf(es, q)
  {
    if es != [] {
      assert es[|es| - 1] in es && forall e :: e in es[..|es| - 1] ==> e in es;
      CostSame(es[..|es| - 1], p, q);
    }
  }

  lemma {:induction false} CostNone(es: seq<Entry>, p: Entry -> bool)
    requires forall e :: e in es ==> !p(e)
    ensures CostOf(es, p) == 0.0
  {
    if es != [] {
      assert es[|es| - 1] in es && forall e :: e in es[..|es| - 1] ==> e in es;
      CostNone(es[..|es| - 1], p);
    }
  }

  // ----- The cap

  /** What a term of this raw cost removes from the score; a limit of zero is none. */
  function Charge(raw: real, limit: real): real {
    if raw <= 0.0 then 0.0 else if limit > 0.0 && limit < raw then limit else raw
  }

  /** A term costs its raw cost up to its limit; a limit of zero is none. */
  ghost predicate Capped(t: Term) {
    && t.cost <= t.raw && (t.limit > 0.0 ==> t.cost <= t.limit)
    && (t.cost == t.raw || (t.cost == t.limit && t.limit > 0.0))
  }

  function Price(e: Entry, name: TermName, scale: real): Entry {
    e.(term := name, cost := e.raw * scale)
  }

  ghost function Priced(es: seq<Entry>, name: TermName, scale: real): (r: seq<Entry>)
    ensures |r| == |es|
  {
    seq(|es|, i requires 0 <= i < |es| => Price(es[i], name, scale))
  }

  lemma Distribute(x: real, y: real, scale: real)
    ensures (x + y) * scale == x * scale + y * scale
  {
  }

  lemma {:induction false} PricedScales(es: seq<Entry>, name: TermName, scale: real)
    ensures CostOf(Priced(es, name, scale), Everything()) == Raw(es) * scale
  {
    if es != [] {
      var k := |es| - 1;
      PricedScales(es[..k], name, scale);
      assert Priced(es, name, scale)[..k] == Priced(es[..k], name, scale);
      Distribute(Raw(es[..k]), es[k].raw, scale);
    }
  }

  lemma ScaleCancels(cost: real, raw: real)
    requires raw > 0.0
    ensures raw * (cost / raw) == cost
  {
  }

  // ----- Balance

  ghost predicate DistinctNames(terms: seq<Term>) {
    forall i, j :: 0 <= i < j < |terms| ==> terms[i].name != terms[j].name
  }

  /** Every term costs its raw cost up to its cap, and that is what its entries sum to. */
  ghost predicate Matched(terms: seq<Term>, entries: seq<Entry>) {
    forall t :: t in terms ==>
      t.raw > 0.0 && t.cost == Charge(t.raw, t.limit) && CostOf(entries, OfTerm(t.name)) == t.cost
  }

  /** Every entry belongs to a term. */
  ghost predicate Owned(terms: seq<Term>, entries: seq<Entry>) {
    forall e :: e in entries ==> e.term in NamesOf(terms)
  }

  /** A ledger whose entries sum to their terms, and to the total. */
  ghost predicate Balanced(terms: seq<Term>, entries: seq<Entry>) {
    && DistinctNames(terms) && Matched(terms, entries) && Owned(terms, entries)
    && CostOf(entries, Everything()) == TermCosts(terms)
  }

  ghost function NamesOf(terms: seq<Term>): set<TermName> {
    set t | t in terms :: t.name
  }

  lemma OneMoreTerm(terms: seq<Term>, t: Term)
    ensures TermCosts(terms + [t]) == TermCosts(terms) + t.cost
    ensures NamesOf(terms + [t]) == NamesOf(terms) + {t.name}
    ensures DistinctNames(terms) && t.name !in NamesOf(terms) ==> DistinctNames(terms + [t])
  {
    assert (terms + [t])[..|terms|] == terms;
    assert t in terms + [t] && forall u :: u in terms ==> u in terms + [t];
    assert forall i :: 0 <= i < |terms| ==> terms[i] in terms;
  }

  lemma MatchedMore(terms: seq<Term>, entries: seq<Entry>, t: Term, more: seq<Entry>)
    requires Matched(terms, entries) && Owned(terms, entries) && t.name !in NamesOf(terms)
    requires t.raw > 0.0 && t.cost == Charge(t.raw, t.limit)
    requires forall e :: e in more ==> e.term == t.name
    requires CostOf(more, Everything()) == t.cost
    ensures Matched(terms + [t], entries + more)
  {
    hide CostOf, Owned;
    forall u | u in terms + [t]
      ensures CostOf(entries + more, OfTerm(u.name)) == u.cost
    {
      CostConcat(entries, more, OfTerm(u.name));
      if u in terms {
        assert u.name in NamesOf(terms);
        CostNone(more, OfTerm(u.name));
      } else {
        NoneOwned(terms, entries, t.name);
        CostSame(more, Everything(), OfTerm(t.name));
      }
    }
  }

  lemma NoneOwned(terms: seq<Term>, entries: seq<Entry>, name: TermName)
    requires Owned(terms, entries) && name !in NamesOf(terms)
    ensures CostOf(entries, OfTerm(name)) == 0.0
  {
    CostNone(entries, OfTerm(name));
  }

  /** Adding a term with its entries keeps the balance. */
  lemma BalancedMore(terms: seq<Term>, entries: seq<Entry>, t: Term, more: seq<Entry>)
    requires Balanced(terms, entries) && t.name !in NamesOf(terms)
    requires t.raw > 0.0 && t.cost == Charge(t.raw, t.limit)
    requires forall e :: e in more ==> e.term == t.name
    requires CostOf(more, Everything()) == t.cost
    ensures Balanced(terms + [t], entries + more)
    ensures TermCosts(terms + [t]) == TermCosts(terms) + t.cost
    ensures NamesOf(terms + [t]) == NamesOf(terms) + {t.name}
  {
    hide CostOf, TermCosts, NamesOf, Matched, DistinctNames;
    OneMoreTerm(terms, t);
    MatchedMore(terms, entries, t, more);
    CostConcat(entries, more, Everything());
  }

  /** The terms of a balanced ledger cost their raw cost up to their caps. */
  lemma BalancedCapped(terms: seq<Term>, entries: seq<Entry>)
    requires Balanced(terms, entries)
    ensures forall t :: t in terms ==> Capped(t)
  {
  }

  // ----- What each term charges

  function Times(n: nat, x: real): real {
    n as real * x
  }

  ghost function CountOf(fs: seq<Finding>, severity: Severity): nat {
    if fs == [] then 0
    else CountOf(fs[..|fs| - 1], severity) + if fs[|fs| - 1].severity == severity then 1 else 0
  }

  /** How many findings of the severity stand under the rule on the cluster. */
  ghost function CountUnder(fs: seq<Finding>, severity: Severity, rule: string, cluster: string): nat {
    if fs == [] then 0
    else
      var f := fs[|fs| - 1];
      CountUnder(fs[..|fs| - 1], severity, rule, cluster)
      + if f.severity == severity && f.rule == rule && f.cluster == cluster then 1 else 0
  }

  ghost function CountStatus(hs: seq<Health>, critical: bool): nat {
    if hs == [] then 0
    else CountStatus(hs[..|hs| - 1], critical) + if Pays(hs[|hs| - 1].status, critical) then 1 else 0
  }

  /** The statuses that pay the critical and the degraded share of the fleet fraction. */
  predicate Pays(s: Status, critical: bool) {
    if critical then s == CriticalCluster else s == DegradedCluster || s == StrainedCluster
  }

  /** The unhealthy share of a cluster's nodes, zero when it has none. */
  function UnhealthyFraction(o: Observed): real {
    if o.nodeCount <= 0 || o.nodeCount - o.healthyNodes <= 0 then 0.0
    else (o.nodeCount - o.healthyNodes) as real / o.nodeCount as real
  }

  ghost function WorstFraction(hs: seq<Health>): real {
    if hs == [] then 0.0
    else
      var before := WorstFraction(hs[..|hs| - 1]);
      var last := UnhealthyFraction(hs[|hs| - 1].observed);
      if last > before then last else before
  }

  function SkewCost(severity: Severity): real {
    match severity
    case Critical => VERSION_CRITICAL
    case Warning => VERSION_WARNING
    case _ => 0.0
  }

  function VersionsOf(hs: seq<Health>): seq<string> {
    if hs == [] then []
    else
      var v := hs[|hs| - 1].observed.version;
      VersionsOf(hs[..|hs| - 1]) + if v != "" then [v] else []
  }

  /** The share one critical or degraded cluster pays. */
  function Share(hs: seq<Health>, critical: bool): real {
    if hs == [] then 0.0 else (if critical then CRITICAL_FLEET else DEGRADED_FLEET) / |hs| as real
  }

  ghost function FindingCost(fs: seq<Finding>): real {
    Charge(Times(CountOf(fs, Critical), PER_CRITICAL), CRITICAL_CAP)
    + Charge(Times(CountOf(fs, Warning), PER_WARNING), WARNING_CAP)
    + Charge(Times(CountOf(fs, Info), PER_INFO), INFO_CAP)
  }

  ghost function StatusCost(hs: seq<Health>): real {
    Times(CountStatus(hs, true), Share(hs, true)) + Times(CountStatus(hs, false), Share(hs, false))
  }

  ghost function SkewTermCost(hs: seq<Health>, skew: seq<string> -> Severity): real {
    if |hs| < 2 then 0.0 else SkewCost(skew(VersionsOf(hs)))
  }

  /** The whole cost of the findings and the health they give. */
  ghost function FleetCost(fs: seq<Finding>, hs: seq<Health>, skew: seq<string> -> Severity): real {
    FindingCost(fs) + StatusCost(hs) + SkewTermCost(hs, skew) + WORST_NODE_CAP * WorstFraction(hs)
  }

  /** A term that costs, as the ledger lists it. */
  ghost function OneTerm(name: TermName, count: nat, raw: real, limit: real): seq<Term> {
    if raw <= 0.0 then [] else [Term(name, count, raw, limit, Charge(raw, limit))]
  }

  ghost function SeverityTerm(fs: seq<Finding>, name: TermName, severity: Severity, per: real, limit: real): seq<Term> {
    OneTerm(name, CountOf(fs, severity), Times(CountOf(fs, severity), per), limit)
  }

  ghost function FindingTerms(fs: seq<Finding>): seq<Term> {
    SeverityTerm(fs, CriticalFindings, Critical, PER_CRITICAL, CRITICAL_CAP)
    + SeverityTerm(fs, WarningFindings, Warning, PER_WARNING, WARNING_CAP)
    + SeverityTerm(fs, InfoFindings, Info, PER_INFO, INFO_CAP)
  }

  ghost function ShareTerm(hs: seq<Health>, critical: bool): seq<Term> {
    OneTerm(if critical then CriticalClusters else DegradedClusters, CountStatus(hs, critical),
            Times(CountStatus(hs, critical), Share(hs, critical)), 0.0)
  }

  ghost function SkewTerm(hs: seq<Health>, skew: seq<string> -> Severity): seq<Term> {
    OneTerm(VersionSkew, 1, SkewTermCost(hs, skew), 0.0)
  }

  ghost function WorstTerm(hs: seq<Health>): seq<Term> {
    OneTerm(WorstNode, 1, WORST_NODE_CAP * WorstFraction(hs), 0.0)
  }

  /** Every term that costs, in ledger order. */
  ghost function LedgerTerms(fs: seq<Finding>, hs: seq<Health>, skew: seq<string> -> Severity): seq<Term> {
    FindingTerms(fs) + ShareTerm(hs, true) + ShareTerm(hs, false) + SkewTerm(hs, skew) + WorstTerm(hs)
  }

  // ----- The ledger

  ghost predicate HasKey(entries: seq<Entry>, key: Entry -> string, k: string) {
    exists e :: e in entries && key(e) == k
  }

  /** Sums of cost under each key of the entries that have one. */
  ghost predicate Sums(m: map<string, real>, entries: seq<Entry>, key: Entry -> string) {
    && (forall k :: k in m <==> k != "" && HasKey(entries, key, k))
    && (forall k :: k in m ==> m[k] == CostOf(entries, Under(key, k)))
  }

  function ClusterOf(e: Entry): string {
    e.cluster
  }

  function RuleOf(e: Entry): string {
    e.rule
  }

  lemma OneMoreEntry(entries: seq<Entry>, key: Entry -> string, e: Entry, k: string)
    ensures CostOf(entries + [e], Under(key, k)) ==
            (if HasKey(entries, key, k) then CostOf(entries, Under(key, k)) else 0.0)
            + if key(e) == k then e.cost else 0.0
    ensures HasKey(entries + [e], key, k) <==> HasKey(entries, key, k) || key(e) == k
  {
    var all := entries + [e];
    assert all[..|all| - 1] == entries;
    assert e in all && forall x :: x in all <==> x in entries || x == e;
    if !HasKey(entries, key, k) {
      CostNone(entries, Under(key, k));
    }
  }

  /** Charges one entry to its key, if it has one. */
  method Tally(m: map<string, real>, k: string, cost: real, ghost entries: seq<Entry>, ghost key: Entry -> string,
               ghost e: Entry) returns (m': map<string, real>)
    requires Sums(m, entries, key) && k == key(e) && cost == e.cost
    ensures Sums(m', entries + [e], key)
  {
    hide CostOf, HasKey, Under;
    m' := m;
    forall k' ensures CostOf(entries + [e], Under(key, k')) ==
                      (if HasKey(entries, key, k') then CostOf(entries, Under(key, k')) else 0.0)
                      + if key(e) == k' then e.cost else 0.0
              ensures HasKey(entries + [e], key, k') <==> HasKey(entries, key, k') || key(e) == k'
    {
      OneMoreEntry(entries, key, e, k');
    }
    if k != "" {
      m' := m[k := (if k in m then m[k] else 0.0) + cost];
    }
  }

  method RawTotal(charges: seq<Entry>) returns (raw: real)
    ensures raw == Raw(charges)
  {
    raw := 0.0;
    for i := 0 to |charges|
      invariant raw == Raw(charges[..i])
    {
      assert charges[..i + 1][..i] == charges[..i];
      raw := raw + charges[i].raw;
    }
    assert charges[..|charges|] == charges;
  }

  method PriceAll(charges: seq<Entry>, name: TermName, scale: real) returns (priced: seq<Entry>)
    ensures priced == Priced(charges, name, scale)
  {
    priced := [];
    for i := 0 to |charges|
      invariant |priced| == i && forall k :: 0 <= k < i ==> priced[k] == Price(charges[k], name, scale)
    {
      priced := priced + [Price(charges[i], name, scale)];
    }
  }

  lemma PricedToCap(charges: seq<Entry>, name: TermName, raw: real, cost: real)
    requires raw == Raw(charges) && raw > 0.0
    ensures CostOf(Priced(charges, name, cost / raw), Everything()) == cost
    ensures forall e :: e in Priced(charges, name, cost / raw) ==> e.term == name
  {
    PricedScales(charges, name, cost / raw);
    ScaleCancels(cost, raw);
  }

  // ----- The entries of one severity

  lemma OneMoreTimes(n: nat, x: real)
    ensures Times(n + 1, x) == Times(n, x) + x
  {
    assert (n + 1) as real == n as real + 1.0;
  }

  lemma NoTimes(x: real)
    ensures Times(0, x) == 0.0
  {
  }

  lemma {:induction false} RawUpdated(es: seq<Entry>, i: nat, raw: real)
    requires i < |es|
    ensures Raw(es[i := es[i].(raw := raw)]) == Raw(es) - es[i].raw + raw
  {
    var k := |es| - 1;
    var es' := es[i := es[i].(raw := raw)];
    if i == k {
      assert es'[..k] == es[..k];
    } else {
      RawUpdated(es[..k], i, raw);
      assert es'[..k] == es[..k][i := es[i].(raw := raw)];
    }
  }

  lemma RawAppended(es: seq<Entry>, e: Entry)
    ensures Raw(es + [e]) == Raw(es) + e.raw
  {
    assert (es + [e])[..|es|] == es;
  }

  /** The entries list every rule and cluster pair with a finding of the severity once, at the
      position the index gives, charged per times its findings. */
  ghost predicate Gathered(es: seq<Entry>, index: map<(string, string), nat>, fs: seq<Finding>, severity: Severity,
                           per: real) {
    && (forall key :: key in index ==> index[key] < |es| && (es[index[key]].rule, es[index[key]].cluster) == key)
    && (forall k :: 0 <= k < |es| ==> (es[k].rule, es[k].cluster) in index && index[(es[k].rule, es[k].cluster)] == k)
    && (forall k :: 0 <= k < |es| ==> es[k].raw == Times(CountUnder(fs, severity, es[k].rule, es[k].cluster), per))
    && (forall f :: f in fs && f.severity == severity ==> (f.rule, f.cluster) in index)
  }

  lemma {:induction false} CountUnderNone(fs: seq<Finding>, severity: Severity, rule: string, cluster: string)
    requires forall f :: f in fs && f.severity == severity ==> (f.rule, f.cluster) != (rule, cluster)
    ensures CountUnder(fs, severity, rule, cluster) == 0
  {
    if fs != [] {
      assert fs[|fs| - 1] in fs && forall f :: f in fs[..|fs| - 1] ==> f in fs;
      CountUnderNone(fs[..|fs| - 1], severity, rule, cluster);
    }
  }

  /** How the counts grow by one finding. */
  lemma CountMore(fs: seq<Finding>, f: Finding, severity: Severity, rule: string, cluster: string)
    ensures CountOf(fs + [f], severity) == CountOf(fs, severity) + if f.severity == severity then 1 else 0
    ensures CountUnder(fs + [f], severity, rule, cluster) ==
            CountUnder(fs, severity, rule, cluster)
            + if f.severity == severity && f.rule == rule && f.cluster == cluster then 1 else 0
  {
    assert (fs + [f])[..|fs|] == fs;
  }

  /** Charges one finding of the severity to its pair's entry. */
  method ChargePair(es: seq<Entry>, index: map<(string, string), nat>, ghost fs: seq<Finding>, f: Finding, per: real)
    returns (es': seq<Entry>, index': map<(string, string), nat>)
    requires Gathered(es, index, fs, f.severity, per)
    ensures Gathered(es', index', fs + [f], f.severity, per)
    ensures Raw(es') == Raw(es) + per
  {
    hide CountUnder, Raw, Times;
    es', index' := es, index;
    var key := (f.rule, f.cluster);
    if key !in index {
      es' := es + [Entry(CriticalFindings, f.rule, f.cluster, 0.0, 0.0)];
      index' := index[key := |es|];
      RawAppended(es, es'[|es|]);
      CountUnderNone(fs, f.severity, f.rule, f.cluster);
      NoTimes(per);
    }
    var i := index'[key];
    RawUpdated(es', i, es'[i].raw + per);
    OneMoreTimes(CountUnder(fs, f.severity, f.rule, f.cluster), per);
    forall k | 0 <= k < |es'|
      ensures CountUnder(fs + [f], f.severity, es'[k].rule, es'[k].cluster) ==
              CountUnder(fs, f.severity, es'[k].rule, es'[k].cluster) + if k == i then 1 else 0
    {
      CountMore(fs, f, f.severity, es'[k].rule, es'[k].cluster);
    }
    es' := es'[i := es'[i].(raw := es'[i].raw + per)];
  }

  lemma PassedOver(es: seq<Entry>, index: map<(string, string), nat>, fs: seq<Finding>, f: Finding, severity: Severity,
                   per: real)
    requires Gathered(es, index, fs, severity, per) && f.severity != severity
    ensures Gathered(es, index, fs + [f], severity, per)
  {
    hide CountUnder;
    forall k | 0 <= k < |es|
      ensures CountUnder(fs + [f], severity, es[k].rule, es[k].cluster) ==
              CountUnder(fs, severity, es[k].rule, es[k].cluster)
    {
      CountMore(fs, f, severity, es[k].rule, es[k].cluster);
    }
  }

  /** One entry per rule and cluster pair, and how many findings they charge. */
  method GatherEntries(fs: seq<Finding>, severity: Severity, per: real)
    returns (es: seq<Entry>, count: nat, ghost index: map<(string, string), nat>)
    ensures Gathered(es, index, fs, severity, per)
    ensures count == CountOf(fs, severity) && Raw(es) == Times(count, per)
  {
    hide Gathered, Times, Raw;
    var positions := map[];
    es, count := [], 0;
    NoneGathered(severity, per);
    RawNone();
    NoTimes(per);
    for i := 0 to |fs|
      invariant Gathered(es, positions, fs[..i], severity, per)
      invariant count == CountOf(fs[..i], severity) && Raw(es) == Times(count, per)
    {
      assert fs[..i + 1] == fs[..i] + [fs[i]];
      CountMore(fs[..i], fs[i], severity, "", "");
      if fs[i].severity != severity {
        PassedOver(es, positions, fs[..i], fs[i], severity, per);
        continue;
      }
      OneMoreTimes(count, per);
      count := count + 1;
      es, positions := ChargePair(es, positions, fs[..i], fs[i], per);
    }
    assert fs[..|fs|] == fs;
    index := positions;
  }

  lemma NoneGathered(severity: Severity, per: real)
    ensures Gathered([], map[], [], severity, per)
  {
  }

  // ----- The entries of the cluster terms

  /** The clusters that pay a share, in order. */
  ghost function Payers(hs: seq<Health>, critical: bool): (names: seq<string>)
    ensures |names| == CountStatus(hs, critical)
  {
    if hs == [] then []
    else
      var h := hs[|hs| - 1];
      Payers(hs[..|hs| - 1], critical) + if Pays(h.status, critical) then [h.name] else []
  }

  /** An entry for each cluster, of this raw cost and cost. */
  ghost function PaidBy(name: TermName, clusters: seq<string>, raw: real, cost: real): (es: seq<Entry>)
    ensures |es| == |clusters|
  {
    seq(|clusters|, i requires 0 <= i < |clusters| => Entry(name, "", clusters[i], raw, cost))
  }

  /** One share for every cluster that pays. */
  method Shares(hs: seq<Health>, critical: bool) returns (es: seq<Entry>)
    ensures Raw(es) == Times(CountStatus(hs, critical), Share(hs, critical))
    ensures es == PaidBy(CriticalClusters, Payers(hs, critical), Share(hs, critical), 0.0)
  {
    hide Share, Raw, Times;
    es := [];
    var share := if hs == [] then 0.0 else Share(hs, critical);
    RawNone();
    NoTimes(share);
    for i := 0 to |hs|
      invariant es == PaidBy(CriticalClusters, Payers(hs[..i], critical), share, 0.0)
      invariant Raw(es) == Times(|es|, share)
    {
      assert hs[..i + 1][..i] == hs[..i];
      if Pays(hs[i].status, critical) {
        var e := Entry(CriticalClusters, "", hs[i].name, share, 0.0);
        RawAppended(es, e);
        OneMoreTimes(|es|, share);
        es := es + [e];
      }
    }
    assert hs[..|hs|] == hs;
    assert hs == [] ==> |es| == 0;
    NoTimes(share);
    NoTimes(Share(hs, critical));
  }

  /** The entries that charge every critical or degraded cluster its share. */
  ghost function ShareEntries(hs: seq<Health>, critical: bool): seq<Entry> {
    PaidBy(if critical then CriticalClusters else DegradedClusters, Payers(hs, critical), Share(hs, critical),
           Share(hs, critical))
  }

  /** The entry that charges the fleet its version skew, if it costs. */
  ghost function SkewEntries(hs: seq<Health>, skew: seq<string> -> Severity): seq<Entry> {
    var cost := SkewTermCost(hs, skew);
    if cost > 0.0 then [Entry(VersionSkew, "version/skew", "", cost, cost)] else []
  }

  /** The first cluster with the worst share of unhealthy nodes pays for it, when there is one. */
  ghost predicate WorstNodePaid(hs: seq<Health>, es: seq<Entry>) {
    var worst := WorstFraction(hs);
    if worst == 0.0 then es == []
    else exists i :: FirstWorst(hs, i)
                     && es == [Entry(WorstNode, "", hs[i].name, WORST_NODE_CAP * worst, WORST_NODE_CAP * worst)]
  }

  ghost predicate FirstWorst(hs: seq<Health>, i: int) {
    && 0 <= i < |hs| && UnhealthyFraction(hs[i].observed) == WorstFraction(hs)
    && forall k :: 0 <= k < i ==> UnhealthyFraction(hs[k].observed) < WorstFraction(hs)
  }

  /** The entries that charge the findings of one severity: one for each rule and cluster pair, all scaled alike. */
  ghost predicate SeverityPaid(fs: seq<Finding>, name: TermName, severity: Severity, per: real, limit: real,
                               es: seq<Entry>)
  {
    exists pairs, index ::
      && Gathered(pairs, index, fs, severity, per) && Raw(pairs) == Times(CountOf(fs, severity), per)
      && PricedTo(pairs, name, limit, es)
  }

  /** The entries of the findings: critical, then warning, then info. */
  ghost predicate FindingsSplit(fs: seq<Finding>, es: seq<Entry>, i: nat, j: nat) {
    && i <= j <= |es|
    && SeverityPaid(fs, CriticalFindings, Critical, PER_CRITICAL, CRITICAL_CAP, es[..i])
    && SeverityPaid(fs, WarningFindings, Warning, PER_WARNING, WARNING_CAP, es[i..j])
    && SeverityPaid(fs, InfoFindings, Info, PER_INFO, INFO_CAP, es[j..])
  }

  ghost predicate FindingsPaid(fs: seq<Finding>, es: seq<Entry>) {
    exists i: nat, j: nat :: FindingsSplit(fs, es, i, j)
  }

  /** es are the charges, scaled alike so that they sum to the capped cost; none when they cost nothing. */
  ghost predicate PricedTo(charges: seq<Entry>, name: TermName, limit: real, es: seq<Entry>) {
    es == if Raw(charges) <= 0.0 then [] else Priced(charges, name, Charge(Raw(charges), limit) / Raw(charges))
  }

  /** Without a cap every entry costs its raw cost. */
  lemma UncappedShares(name: TermName, clusters: seq<string>, raw: real, es: seq<Entry>)
    requires PricedTo(PaidBy(CriticalClusters, clusters, raw, 0.0), name, 0.0, es)
    requires clusters == [] || Raw(PaidBy(CriticalClusters, clusters, raw, 0.0)) > 0.0
    ensures es == PaidBy(name, clusters, raw, raw)
  {
    if clusters == [] {
      RawNone();
    } else {
      UncappedScale(Raw(PaidBy(CriticalClusters, clusters, raw, 0.0)));
    }
  }

  lemma UncappedScale(raw: real)
    requires raw > 0.0
    ensures Charge(raw, 0.0) / raw == 1.0
  {
  }

  lemma UncappedOne(name: TermName, e: Entry, es: seq<Entry>)
    requires PricedTo([e], name, 0.0, es) && e.raw > 0.0
    ensures es == [e.(term := name, cost := e.raw)]
  {
    RawAppended([], e);
    RawNone();
    assert [] + [e] == [e];
    UncappedScale(e.raw);
  }

  lemma SharesCost(hs: seq<Health>, critical: bool)
    requires hs != [] && CountStatus(hs, critical) > 0
    ensures Times(CountStatus(hs, critical), Share(hs, critical)) > 0.0
  {
    ShareNonNegative(hs, critical);
    assert Share(hs, critical) > 0.0 by { hide CountStatus; }
    hide Share, CountStatus;
    ProductPositive(CountStatus(hs, critical) as real, Share(hs, critical));
  }

  lemma SharesPriced(hs: seq<Health>, critical: bool, charges: seq<Entry>, es: seq<Entry>)
    requires hs != [] && charges == PaidBy(CriticalClusters, Payers(hs, critical), Share(hs, critical), 0.0)
    requires Raw(charges) == Times(CountStatus(hs, critical), Share(hs, critical))
    requires PricedTo(charges, if critical then CriticalClusters else DegradedClusters, 0.0, es)
    ensures es == ShareEntries(hs, critical)
  {
    hide Share, Times, PricedTo, CountStatus, Raw, PaidBy, Payers;
    if CountStatus(hs, critical) > 0 { SharesCost(hs, critical); }
    var name := if critical then CriticalClusters else DegradedClusters;
    UncappedShares(name, Payers(hs, critical), Share(hs, critical), es);
  }

  /** No fraction is above the worst, and none is negative. */
  lemma {:induction false} FractionsSoFar(hs: seq<Health>)
    ensures WorstFraction(hs) >= 0.0
    ensures forall k :: 0 <= k < |hs| ==> UnhealthyFraction(hs[k].observed) <= WorstFraction(hs)
  {
    if hs != [] {
      hide UnhealthyFraction;
      FractionsSoFar(hs[..|hs| - 1]);
      assert forall k :: 0 <= k < |hs| - 1 ==> hs[k] == hs[..|hs| - 1][k];
    }
  }

  lemma ProductPositive(x: real, y: real)
    requires x > 0.0 && y > 0.0
    ensures x * y > 0.0
  {
  }

  lemma NoShares(hs: seq<Health>, critical: bool)
    requires hs == []
    ensures ShareEntries(hs, critical) == []
  {
  }

  lemma NoShareTerm(hs: seq<Health>, critical: bool)
    requires hs == []
    ensures ShareTerm(hs, critical) == []
  {
    NoTimes(Share(hs, critical));
  }

  lemma NoStatus(hs: seq<Health>)
    requires hs == []
    ensures StatusCost(hs) == 0.0
  {
  }

  lemma NoTermsYet()
    ensures Balanced([], [])
  {
  }

  lemma RawNone()
    ensures Raw([]) == 0.0
  {
  }

  /** A share is paid in full: it has no cap. */
  lemma SharesCharged(hs: seq<Health>, critical: bool)
    ensures var raw := Times(CountStatus(hs, critical), Share(hs, critical));
            Charge(raw, 0.0) == raw
  {
    ShareNonNegative(hs, critical);
    hide Share, CountStatus;
    ProductNonNegative(CountStatus(hs, critical) as real, Share(hs, critical));
  }

  lemma ShareNonNegative(hs: seq<Health>, critical: bool)
    ensures Share(hs, critical) >= 0.0
  {
  }

  lemma ProductNonNegative(x: real, y: real)
    requires x >= 0.0 && y >= 0.0
    ensures x * y >= 0.0
  {
  }

  /** The worst unhealthy-node ratio and the first cluster that has it. */
  method Worst(hs: seq<Health>) returns (worst: real, cluster: string, ghost at: int)
    ensures worst == WorstFraction(hs) >= 0.0
    ensures worst > 0.0 ==> 0 <= at < |hs| && FirstWorst(hs, at) && cluster == hs[at].name
  {
    hide WorstFraction, UnhealthyFraction, FirstWorst;
    worst, cluster, at := 0.0, "", 0;
    FractionsSoFar([]);
    NoFraction(hs[..0]);
    for i := 0 to |hs|
      invariant worst == WorstFraction(hs[..i]) >= 0.0
      invariant worst > 0.0 ==> 0 <= at < i && FirstWorst(hs[..i], at) && cluster == hs[at].name
    {
      OneMoreFraction(hs, i, at);
      var o := hs[i].observed;
      HasFraction(o);
      if o.nodeCount <= 0 {
        continue;
      }
      var unhealthy := o.nodeCount - o.healthyNodes;
      if unhealthy <= 0 {
        continue;
      }
      var fraction := unhealthy as real / o.nodeCount as real;
      if fraction > worst {
        worst, cluster, at := fraction, hs[i].name, i;
      }
    }
    assert hs[..|hs|] == hs;
  }

  lemma NoFraction(hs: seq<Health>)
    requires hs == []
    ensures WorstFraction(hs) == 0.0
  {
  }

  lemma HasFraction(o: Observed)
    ensures UnhealthyFraction(o) == if o.nodeCount <= 0 || o.nodeCount - o.healthyNodes <= 0 then 0.0
                                    else (o.nodeCount - o.healthyNodes) as real / o.nodeCount as real
  {
  }

  lemma OneMoreFraction(hs: seq<Health>, i: nat, at: int)
    requires i < |hs| && (WorstFraction(hs[..i]) > 0.0 ==> FirstWorst(hs[..i], at))
    ensures var worst, last := WorstFraction(hs[..i]), UnhealthyFraction(hs[i].observed);
            && WorstFraction(hs[..i + 1]) == (if last > worst then last else worst) && worst >= 0.0
            && (if last > worst then FirstWorst(hs[..i + 1], i)
                else worst > 0.0 ==> FirstWorst(hs[..i + 1], at) && at < i)
  {
    hide UnhealthyFraction;
    assert hs[..i + 1][..i] == hs[..i];
    FractionsSoFar(hs[..i]);
    assert forall k :: 0 <= k < i ==> hs[..i + 1][k] == hs[..i][k];
  }

  class ScoreAttribution {
    var terms: seq<Term>
    var entries: seq<Entry>
    var total: real
    var byCluster: map<string, real>
    var byRule: map<string, real>

    constructor ()
      ensures terms == [] && entries == [] && total == 0.0 && byCluster == map[] && byRule == map[]
    {
      terms, entries, total, byCluster, byRule := [], [], 0.0, map[], map[];
    }

    /** Appends a term built from entries whose raw cost is set, every one scaled alike so that they
        sum to the capped cost; a term that costs nothing is skipped. */
    method AddTerm(name: TermName, count: nat, limit: real, charges: seq<Entry>)
      requires Balanced(terms, entries) && name !in NamesOf(terms)
      modifies this`terms, this`entries
      ensures Balanced(terms, entries)
      ensures TermCosts(terms) == old(TermCosts(terms)) + Charge(Raw(charges), limit)
      ensures NamesOf(terms) <= old(NamesOf(terms)) + {name}
      ensures terms == old(terms) + OneTerm(name, count, Raw(charges), limit)
      ensures old(entries) <= entries && PricedTo(charges, name, limit, entries[|old(entries)|..])
    {
      hide CostOf, TermCosts, Balanced, NamesOf, Priced, Raw;
      var raw := RawTotal(charges);
      if raw <= 0.0 {
        return;
      }
      var cost := raw;
      if limit > 0.0 {
        cost := if limit < raw then limit else raw;
      }
      var priced := PriceAll(charges, name, cost / raw);
      PricedToCap(charges, name, raw, cost);
      BalancedMore(terms, entries, Term(name, count, raw, limit, cost), priced);
      terms := terms + [Term(name, count, raw, limit, cost)];
      entries := entries + priced;
    }

    /** Charges the findings of one severity, one entry per rule and cluster pair. */
    method AddSeverityTerm(fs: seq<Finding>, name: TermName, severity: Severity, per: real, limit: real)
      requires Balanced(terms, entries) && name !in NamesOf(terms)
      modifies this`terms, this`entries
      ensures Balanced(terms, entries) && NamesOf(terms) <= old(NamesOf(terms)) + {name}
      ensures TermCosts(terms) == old(TermCosts(terms)) + Charge(Times(CountOf(fs, severity), per), limit)
      ensures old(entries) <= entries && SeverityPaid(fs, name, severity, per, limit, entries[|old(entries)|..])
      ensures terms == old(terms) + SeverityTerm(fs, name, severity, per, limit)
    {
      hide Balanced, NamesOf, TermCosts, Gathered, Charge, Raw, CountOf, Times, PricedTo;
      var es, count, index := GatherEntries(fs, severity, per);
      AddTerm(name, count, limit, es);
    }

    /** Charges each finding by severity, each severity capped. */
    method AddFindingTerms(fs: seq<Finding>)
      requires terms == [] && entries == []
      modifies this`terms, this`entries
      ensures Balanced(terms, entries) && NamesOf(terms) <= {CriticalFindings, WarningFindings, InfoFindings}
      ensures TermCosts(terms) == FindingCost(fs) && FindingsPaid(fs, entries) && terms == FindingTerms(fs)
    {
      hide Balanced, SeverityPaid, Times, Charge, SeverityTerm;
      NoTermsYet();
      AddSeverityTerm(fs, CriticalFindings, Critical, PER_CRITICAL, CRITICAL_CAP);
      ghost var one := entries;
      AddSeverityTerm(fs, WarningFindings, Warning, PER_WARNING, WARNING_CAP);
      ghost var two := entries;
      AddSeverityTerm(fs, InfoFindings, Info, PER_INFO, INFO_CAP);
      assert one == one[0..] == entries[..|one|] && two[|one|..] == entries[|one|..|two|];
      assert FindingsSplit(fs, entries, |one|, |two|);
    }

    /** Charges each critical and each degraded cluster its share of the fleet-fraction cost. */
    method AddClusterHealthTerms(hs: seq<Health>)
      requires Balanced(terms, entries) && NamesOf(terms) !! {CriticalClusters, DegradedClusters}
      modifies this`terms, this`entries
      ensures Balanced(terms, entries) && NamesOf(terms) <= old(NamesOf(terms)) + {CriticalClusters, DegradedClusters}
      ensures TermCosts(terms) == old(TermCosts(terms)) + StatusCost(hs)
      ensures entries == old(entries) + ShareEntries(hs, true) + ShareEntries(hs, false)
      ensures terms == old(terms) + ShareTerm(hs, true) + ShareTerm(hs, false)
    {
      hide Balanced, NamesOf, TermCosts, Charge, Raw, Share, CountStatus, Times, PricedTo, Payers, PaidBy;
      if |hs| == 0 {
        NoStatus(hs);
        NoShares(hs, true);
        NoShares(hs, false);
        NoShareTerm(hs, true);
        NoShareTerm(hs, false);
        return;
      }
      var critical := Shares(hs, true);
      var degraded := Shares(hs, false);
      SharesCharged(hs, true);
      SharesCharged(hs, false);
      ghost var e0 := entries;
      AddTerm(CriticalClusters, |critical|, 0.0, critical);
      ghost var e1 := entries;
      SharesPriced(hs, true, critical, e1[|e0|..]);
      AddTerm(DegradedClusters, |degraded|, 0.0, degraded);
      SharesPriced(hs, false, degraded, entries[|e1|..]);
      assert e1 == e0 + e1[|e0|..] && entries == e1 + entries[|e1|..];
    }

    /** Charges a fleet-wide cost for version skew. */
    method AddVersionSkewTerm(hs: seq<Health>, skew: seq<string> -> Severity)
      requires Balanced(terms, entries) && VersionSkew !in NamesOf(terms)
      modifies this`terms, this`entries
      ensures Balanced(terms, entries) && NamesOf(terms) <= old(NamesOf(terms)) + {VersionSkew}
      ensures TermCosts(terms) == old(TermCosts(terms)) + SkewTermCost(hs, skew)
      ensures entries == old(entries) + SkewEntries(hs, skew)
      ensures terms == old(terms) + SkewTerm(hs, skew)
    {
      hide Balanced, NamesOf, TermCosts, PricedTo;
      if |hs| < 2 {
        return;
      }
      var versions := [];
      for i := 0 to |hs|
        invariant versions == VersionsOf(hs[..i])
      {
        assert hs[..i + 1][..i] == hs[..i];
        if hs[i].observed.version != "" {
          versions := versions + [hs[i].observed.version];
        }
      }
      assert hs[..|hs|] == hs;
      var cost := SkewCost(skew(versions));
      if cost > 0.0 {
        var e := Entry(VersionSkew, "version/skew", "", cost, 0.0);
        RawAppended([], e);
        ghost var before := entries;
        AddTerm(VersionSkew, 1, 0.0, [e]);
        UncappedOne(VersionSkew, e, entries[|before|..]);
        assert entries == before + entries[|before|..];
      }
    }

    /** Charges the fleet by its worst unhealthy-node ratio; ties go to the first cluster. */
    method AddWorstNodeTerm(hs: seq<Health>)
      requires Balanced(terms, entries) && WorstNode !in NamesOf(terms)
      modifies this`terms, this`entries
      ensures Balanced(terms, entries) && NamesOf(terms) <= old(NamesOf(terms)) + {WorstNode}
      ensures TermCosts(terms) == old(TermCosts(terms)) + WORST_NODE_CAP * WorstFraction(hs)
      ensures old(entries) <= entries && WorstNodePaid(hs, entries[|old(entries)|..])
      ensures terms == old(terms) + WorstTerm(hs)
    {
      hide Balanced, NamesOf, TermCosts, PricedTo, WorstFraction, FirstWorst;
      var worst, cluster, at := Worst(hs);
      if worst == 0.0 {
        return;
      }
      var e := Entry(WorstNode, "", cluster, WORST_NODE_CAP * worst, 0.0);
      RawAppended([], e);
      ghost var before := entries;
      AddTerm(WorstNode, 1, 0.0, [e]);
      UncappedOne(WorstNode, e, entries[|before|..]);
    }

    /** Adds the terms up, and the entries by cluster and by rule. */
    method Finish()
      requires Balanced(terms, entries) && total == 0.0 && byCluster == map[] && byRule == map[]
      modifies this`total, this`byCluster, this`byRule
      ensures total == TermCosts(terms)
      ensures Sums(byCluster, entries, ClusterOf) && Sums(byRule, entries, RuleOf)
    {
      hide Balanced, Sums;
      assert terms[..0] == [] && entries[..0] == [];
      for i := 0 to |terms|
        invariant total == TermCosts(terms[..i]) && byCluster == map[] && byRule == map[]
      {
        assert terms[..i + 1][..i] == terms[..i];
        total := total + terms[i].cost;
      }
      assert terms[..|terms|] == terms;
      NothingSummed();
      for i := 0 to |entries|
        invariant total == TermCosts(terms)
        invariant Sums(byCluster, entries[..i], ClusterOf) && Sums(byRule, entries[..i], RuleOf)
      {
        var e := entries[i];
        assert entries[..i + 1] == entries[..i] + [e];
        byCluster := Tally(byCluster, e.cluster, e.cost, entries[..i], ClusterOf, e);
        byRule := Tally(byRule, e.rule, e.cost, entries[..i], RuleOf, e);
      }
      assert entries[..|entries|] == entries;
    }
  }

  lemma NothingSummed()
    ensures Sums(map[], [], ClusterOf) && Sums(map[], [], RuleOf)
  {
  }

  /** The entries of the whole ledger: what the findings cost their rules and clusters, the shares of critical and
      degraded clusters, the version skew, and the worst node. */
  ghost predicate LedgerPaid(fs: seq<Finding>, hs: seq<Health>, skew: seq<string> -> Severity, es: seq<Entry>) {
    exists findings, worst ::
      && FindingsPaid(fs, findings) && WorstNodePaid(hs, worst)
      && es == findings + ShareEntries(hs, true) + ShareEntries(hs, false) + SkewEntries(hs, skew) + worst
  }

  /** The cost ledger of the findings and the health they give. */
  method ComputeScoreAttribution(fs: seq<Finding>, hs: seq<Health>, skew: seq<string> -> Severity)
    returns (a: ScoreAttribution)
    ensures fresh(a) && Balanced(a.terms, a.entries) && LedgerPaid(fs, hs, skew, a.entries)
    ensures a.terms == LedgerTerms(fs, hs, skew) && forall t :: t in a.terms ==> Capped(t)
    ensures a.total == TermCosts(a.terms) == FleetCost(fs, hs, skew)
    ensures Sums(a.byCluster, a.entries, ClusterOf) && Sums(a.byRule, a.entries, RuleOf)
  {
    hide Balanced, Sums, TermCosts, FindingCost, StatusCost, SkewTermCost, WorstFraction, FindingsPaid, WorstNodePaid,
         ShareEntries, SkewEntries, FindingTerms, ShareTerm, SkewTerm, WorstTerm, Capped;
    a := new ScoreAttribution();
    a.AddFindingTerms(fs);
    ghost var findings := a.entries;
    a.AddClusterHealthTerms(hs);
    a.AddVersionSkewTerm(hs, skew);
    ghost var before := a.entries;
    a.AddWorstNodeTerm(hs);
    ghost var worst := a.entries[|before|..];
    assert a.entries == before + worst;
    BalancedCapped(a.terms, a.entries);
    a.Finish();
  }
}
