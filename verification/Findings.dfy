/** Findings, their marks and norms, and the health they give a cluster: cluster_score.go and
    findings.go of internal/report. */
module Findings {
  import opened FieldTable
  import opened SetFacts
  import opened Wrappers

  /** A fleet finding's charge against one cluster. */
  datatype Mark = Mark(cluster: string, severity: Severity)

  /** The norm a finding deviates from: the scanner field and the population it was computed over. */
  datatype Norm = Norm(field: FieldRef, scope: string)

  datatype Finding = Finding(cluster: string, rule: string, severity: Severity, norm: Option<Norm>, marks: seq<Mark>)

  datatype Status = HealthyCluster | UnknownCluster | BusyCluster | StrainedCluster | DegradedCluster | CriticalCluster

  /** What the scanners saw of a cluster, as far as health and score read it. */
  datatype Observed = Observed(version: string, nodeCount: int, healthyNodes: int, blindScanners: nat)

  datatype Health = Health(name: string, status: Status, observed: Observed)

  // ----- Charges

  /** How many of the marks name the cluster at this severity. */
  ghost function MarksOn(cluster: string, severity: Severity, marks: seq<Mark>): nat {
    if marks == [] then 0
    else MarksOn(cluster, severity, marks[..|marks| - 1])
         + if marks[|marks| - 1] == Mark(cluster, severity) then 1 else 0
  }

  /** How many findings and marks of this severity the cluster is charged for. */
  ghost function Charged(cluster: string, severity: Severity, fs: seq<Finding>): nat {
    if fs == [] then 0
    else
      var f := fs[|fs| - 1];
      Charged(cluster, severity, fs[..|fs| - 1])
      + (if f.cluster == cluster && f.severity == severity then 1 else 0)
      + MarksOn(cluster, severity, f.marks)
  }

  /** One of the three severities the counts are kept for. */
  predicate Counted(s: Severity) {
    s == Critical || s == Warning || s == Info
  }

  /** One more of severity s, when it is counted. */
  method Count(counts: map<Severity, nat>, s: Severity) returns (counts': map<Severity, nat>)
    requires counts.Keys == {Critical, Warning, Info}
    ensures counts'.Keys == counts.Keys
    ensures forall t :: t in counts ==> counts'[t] == counts[t] + if s == t then 1 else 0
  {
    counts' := counts;
    if Counted(s) {
      counts' := counts[s := counts[s] + 1];
    }
  }

  /** One more for every mark on the cluster. */
  method CountMarks(counts: map<Severity, nat>, cluster: string, marks: seq<Mark>) returns (counts': map<Severity, nat>)
    requires counts.Keys == {Critical, Warning, Info}
    ensures counts'.Keys == counts.Keys
    ensures forall t :: t in counts ==> counts'[t] == counts[t] + MarksOn(cluster, t, marks)
  {
    counts' := counts;
    for k := 0 to |marks|
      invariant counts'.Keys == counts.Keys
      invariant forall t :: t in counts ==> counts'[t] == counts[t] + MarksOn(cluster, t, marks[..k])
    {
      assert marks[..k + 1][..k] == marks[..k];
      if marks[k].cluster == cluster {
        counts' := Count(counts', marks[k].severity);
      }
    }
    assert marks[..|marks|] == marks;
  }

  /** The counts of all three severities charged to the cluster. */
  method ClusterSeverityCounts(cluster: string, fs: seq<Finding>) returns (counts: map<Severity, nat>)
    ensures counts.Keys == {Critical, Warning, Info}
    ensures forall s :: s in counts ==> counts[s] == Charged(cluster, s, fs)
  {
    hide MarksOn;
    counts := map[Critical := 0, Warning := 0, Info := 0];
    for i := 0 to |fs|
      invariant counts.Keys == {Critical, Warning, Info}
      invariant forall s :: s in counts ==> counts[s] == Charged(cluster, s, fs[..i])
    {
      var f := fs[i];
      assert fs[..i + 1][..i] == fs[..i];
      if f.cluster == cluster {
        counts := Count(counts, f.severity);
      }
      counts := CountMarks(counts, cluster, f.marks);
    }
    assert fs[..|fs|] == fs;
  }

  /** Finding f charges the cluster at this severity. */
  ghost predicate Charges(f: Finding, cluster: string, severity: Severity) {
    (f.cluster == cluster && f.severity == severity) || Mark(cluster, severity) in f.marks
  }

  lemma {:induction false} MarksOnPositive(cluster: string, severity: Severity, marks: seq<Mark>)
    ensures MarksOn(cluster, severity, marks) > 0 <==> Mark(cluster, severity) in marks
  {
    if marks != [] {
      var k := |marks| - 1;
      MarksOnPositive(cluster, severity, marks[..k]);
      assert marks == marks[..k] + [marks[k]];
    }
  }

  /** A cluster is charged once for its own finding, and once for each mark that names it. */
  lemma OneCharge(cluster: string, severity: Severity, f: Finding)
    ensures Charged(cluster, severity, [f]) ==
            (if f.cluster == cluster && f.severity == severity then 1 else 0)
            + |Places(f.marks, IsMark(cluster, severity))|
  {
    MarksMean(cluster, severity, f.marks);
    assert [f][..0] == [];
  }

  ghost function IsMark(cluster: string, severity: Severity): Mark -> bool {
    m => m == Mark(cluster, severity)
  }

  lemma {:induction false} MarksMean(cluster: string, severity: Severity, marks: seq<Mark>)
    ensures MarksOn(cluster, severity, marks) == |Places(marks, IsMark(cluster, severity))|
  {
    if marks != [] {
      MarksMean(cluster, severity, marks[..|marks| - 1]);
      PlacesMore(marks, IsMark(cluster, severity));
    }
  }

  /** A cluster is charged at a severity exactly when some finding charges it. */
  lemma {:induction false} ChargedPositive(cluster: string, severity: Severity, fs: seq<Finding>)
    ensures Charged(cluster, severity, fs) > 0 <==> exists f :: f in fs && Charges(f, cluster, severity)
  {
    if fs != [] {
      var k := |fs| - 1;
      ChargedPositive(cluster, severity, fs[..k]);
      MarksOnPositive(cluster, severity, fs[k].marks);
      assert fs == fs[..k] + [fs[k]] && fs[k] in fs;
      assert (exists f :: f in fs && Charges(f, cluster, severity)) <==>
             Charges(fs[k], cluster, severity) || exists f :: f in fs[..k] && Charges(f, cluster, severity);
    }
  }

  // ----- Health

  function StatusOf(critical: nat, warning: nat, blindScanners: nat): Status {
    if critical > 0 then CriticalCluster
    else if warning > 0 then DegradedCluster
    else if blindScanners > 0 then UnknownCluster
    else HealthyCluster
  }

  /** The status the findings give the cluster. */
  ghost function StatusFrom(cluster: string, fs: seq<Finding>, blindScanners: nat): Status {
    StatusOf(Charged(cluster, Critical, fs), Charged(cluster, Warning, fs), blindScanners)
  }

  /** Some finding charges the cluster at this severity. */
  ghost predicate IsCharged(cluster: string, severity: Severity, fs: seq<Finding>) {
    exists f :: f in fs && Charges(f, cluster, severity)
  }

  /** One critical charge makes a cluster critical; without one, one warning makes it degraded, and without either a
      scanner that saw nothing leaves it unknown. */
  lemma StatusMeans(cluster: string, fs: seq<Finding>, blindScanners: nat)
    ensures var status := StatusFrom(cluster, fs, blindScanners);
            && (status == CriticalCluster <==> IsCharged(cluster, Critical, fs))
            && (status == DegradedCluster <==> !IsCharged(cluster, Critical, fs) && IsCharged(cluster, Warning, fs))
            && (status == UnknownCluster <==>
                  !IsCharged(cluster, Critical, fs) && !IsCharged(cluster, Warning, fs) && blindScanners > 0)
            && (status == HealthyCluster <==>
                  !IsCharged(cluster, Critical, fs) && !IsCharged(cluster, Warning, fs) && blindScanners == 0)
  {
    ChargedPositive(cluster, Critical, fs);
    ChargedPositive(cluster, Warning, fs);
  }

  /** The health of every cluster, in report order. */
  ghost function HealthsOf(clusters: seq<string>, observed: string -> Observed, fs: seq<Finding>): (hs: seq<Health>)
    ensures |hs| == |clusters|
  {
    seq(|clusters|, i requires 0 <= i < |clusters| =>
      Health(clusters[i], StatusFrom(clusters[i], fs, observed(clusters[i]).blindScanners), observed(clusters[i])))
  }

  method GenerateClusterHealth(clusters: seq<string>, observed: string -> Observed, fs: seq<Finding>)
    returns (healths: seq<Health>)
    ensures healths == HealthsOf(clusters, observed, fs)
    ensures forall i :: 0 <= i < |clusters| ==>
              && healths[i].name == clusters[i] && healths[i].observed == observed(clusters[i])
              && (healths[i].status == CriticalCluster <==> IsCharged(clusters[i], Critical, fs))
              && (healths[i].status == DegradedCluster <==>
                    !IsCharged(clusters[i], Critical, fs) && IsCharged(clusters[i], Warning, fs))
  {
    forall i | 0 <= i < |clusters|
      ensures var status := StatusFrom(clusters[i], fs, observed(clusters[i]).blindScanners);
              && (status == CriticalCluster <==> IsCharged(clusters[i], Critical, fs))
              && (status == DegradedCluster <==>
                    !IsCharged(clusters[i], Critical, fs) && IsCharged(clusters[i], Warning, fs))
    {
      StatusMeans(clusters[i], fs, observed(clusters[i]).blindScanners);
    }
    hide IsCharged;
    healths := [];
    for i := 0 to |clusters|
      invariant |healths| == i && forall k :: 0 <= k < i ==> healths[k] == HealthsOf(clusters, observed, fs)[k]
    {
      var counts := ClusterSeverityCounts(clusters[i], fs);
      var status := HealthyCluster;
      if counts[Critical] > 0 {
        status := CriticalCluster;
      } else if counts[Warning] > 0 {
        status := DegradedCluster;
      }
      var seen := observed(clusters[i]);
      if status == HealthyCluster && seen.blindScanners > 0 {
        status := UnknownCluster;
      }
      healths := healths + [Health(clusters[i], status, seen)];
    }
  }
}
