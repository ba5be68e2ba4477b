/** What the baseline fractions and the checks of internal/admission read: each goes by its own count of a scan, and
    by its own setting of a pod. */
module AdmissionFacts {
  import opened Wrappers
  import opened PodSecurity
  import opened Admission

  // ----- Each fraction reads its own count

  ghost predicate SameCounts(chk: Check, a: seq<ClusterResult>, b: seq<ClusterResult>) {
    |a| == |b| && forall i :: 0 <= i < |a| ==> SampleOf(chk, a[i]) == SampleOf(chk, b[i])
  }

  /** b counts the same for the check as a, with no fewer offenders. */
  ghost predicate NoFewerOffenders(chk: Check, a: seq<ClusterResult>, b: seq<ClusterResult>) {
    |a| == |b| && forall i :: 0 <= i < |a| ==>
      SampleOf(chk, a[i]).size == SampleOf(chk, b[i]).size
      && SampleOf(chk, a[i]).offenders <= SampleOf(chk, b[i]).offenders
  }

  lemma {:induction false} MoreOffendersFewerKeep(chk: Check, a: seq<ClusterResult>, b: seq<ClusterResult>)
    requires NoFewerOffenders(chk, a, b)
    ensures SampledIn(chk, a) == SampledIn(chk, b) && KeepersIn(chk, b) <= KeepersIn(chk, a)
  {
    hide SampleOf;
    if a != [] {
      var k := |a| - 1;
      assert forall i :: 0 <= i < k ==> a[..k][i] == a[i] && b[..k][i] == b[i];
      MoreOffendersFewerKeep(chk, a[..k], b[..k]);
    }
  }

  lemma RatioMono(n: int, m: int, d: int)
    requires n <= m
    ensures Ratio(n, d) <= Ratio(m, d)
  {
    if d > 0 {
      var x, y := n as real / d as real, m as real / d as real;
      assert x * d as real == n as real && y * d as real == m as real;
      Scaled(y - x, d as real);
      assert (y - x) * d as real == (m - n) as real;
    }
  }

  /** A fraction falls, or stays, when a scan has more offenders against its own check. */
  lemma MoreOffendersLower(chk: Check, scan: Scan, scan': Scan)
    requires NoFewerOffenders(chk, scan.results, scan'.results)
    ensures Fraction(chk, BaselineOf(scan')) <= Fraction(chk, BaselineOf(scan))
  {
    hide Fraction, NoFewerOffenders;
    FractionIsShare(chk, scan);
    FractionIsShare(chk, scan');
    MoreOffendersFewerKeep(chk, scan.results, scan'.results);
    RatioMono(KeepersIn(chk, scan'.results), KeepersIn(chk, scan.results), SampledIn(chk, scan.results));
  }

  /** Equal counts for a check give equal fractions. */
  lemma SameCountsSameFraction(chk: Check, scan: Scan, scan': Scan)
    requires SameCounts(chk, scan.results, scan'.results)
    ensures Fraction(chk, BaselineOf(scan')) == Fraction(chk, BaselineOf(scan))
  {
    hide Fraction, BaselineOf, SampleOf;
    MoreOffendersLower(chk, scan, scan');
    MoreOffendersLower(chk, scan', scan);
  }

  /** The scan with other workload counts for one cluster. */
  function WithWorkload(scan: Scan, i: nat, w: Workload): Scan
    requires i < |scan.results|
  {
    scan.(results := scan.results[i := scan.results[i].(workload := Some(w))])
  }

  function WithImages(scan: Scan, i: nat, a: ImageAudit): Scan
    requires i < |scan.results|
  {
    scan.(results := scan.results[i := scan.results[i].(imageAudit := Some(a))])
  }

  /** A scan that differs in the offenders against one check changes that fraction alone, and lowers it. */
  ghost predicate LowersOnly(chk: Check, scan: Scan, scan': Scan) {
    && Fraction(chk, BaselineOf(scan')) <= Fraction(chk, BaselineOf(scan))
    && (forall other :: other != chk ==> Fraction(other, BaselineOf(scan')) == Fraction(other, BaselineOf(scan)))
  }

  lemma OneCheckLowers(chk: Check, scan: Scan, scan': Scan)
    requires NoFewerOffenders(chk, scan.results, scan'.results)
    requires forall other :: other != chk ==> SameCounts(other, scan.results, scan'.results)
    ensures LowersOnly(chk, scan, scan')
  {
    hide Fraction, BaselineOf, SameCounts, NoFewerOffenders;
    MoreOffendersLower(chk, scan, scan');
    forall other | other != chk ensures Fraction(other, BaselineOf(scan')) == Fraction(other, BaselineOf(scan)) {
      SameCountsSameFraction(other, scan, scan');
    }
  }

  /** Every count a cluster reports moves one fraction and no other: images without a digest the digest fraction,
      containers not run as non-root, allowing escalation or with a writable root theirs, and pods under the default
      account the account fraction. More offenders lower it. */
  lemma EachCountIsItsOwn(scan: Scan, i: nat, more: nat)
    requires i < |scan.results| && scan.results[i].imageAudit.Some? && scan.results[i].workload.Some?
    ensures var a, w := scan.results[i].imageAudit.value, scan.results[i].workload.value;
            && LowersOnly(DigestPin, scan, WithImages(scan, i, a.(noDigest := a.noDigest + more)))
            && LowersOnly(NonRootUser, scan, WithWorkload(scan, i, w.(nonRoot := w.nonRoot - more)))
            && LowersOnly(NoPrivilegeEscalation, scan,
                          WithWorkload(scan, i, w.(allowPrivEsc := w.allowPrivEsc + more)))
            && LowersOnly(ReadOnlyRoot, scan, WithWorkload(scan, i, w.(noReadOnlyRoot := w.noReadOnlyRoot + more)))
            && LowersOnly(NamedServiceAccount, scan, WithWorkload(scan, i, w.(defaultSA := w.defaultSA + more)))
  {
    hide LowersOnly;
    var a, w := scan.results[i].imageAudit.value, scan.results[i].workload.value;
    OneCheckLowers(DigestPin, scan, WithImages(scan, i, a.(noDigest := a.noDigest + more)));
    OneCheckLowers(NonRootUser, scan, WithWorkload(scan, i, w.(nonRoot := w.nonRoot - more)));
    OneCheckLowers(NoPrivilegeEscalation, scan, WithWorkload(scan, i, w.(allowPrivEsc := w.allowPrivEsc + more)));
    OneCheckLowers(ReadOnlyRoot, scan, WithWorkload(scan, i, w.(noReadOnlyRoot := w.noReadOnlyRoot + more)));
    OneCheckLowers(NamedServiceAccount, scan, WithWorkload(scan, i, w.(defaultSA := w.defaultSA + more)));
  }

  ghost function OffendersIn(chk: Check, results: seq<ClusterResult>): int {
    if results == [] then 0
    else OffendersIn(chk, results[..|results| - 1]) + SampleOf(chk, results[|results| - 1]).offenders
  }

  ghost function SizesIn(chk: Check, results: seq<ClusterResult>): int {
    if results == [] then 0 else SizesIn(chk, results[..|results| - 1]) + SampleOf(chk, results[|results| - 1]).size
  }

  ghost predicate InRange(chk: Check, results: seq<ClusterResult>) {
    forall i :: 0 <= i < |results| ==> 0 <= SampleOf(chk, results[i]).offenders <= SampleOf(chk, results[i]).size
  }

  lemma {:induction false} InRangeSums(chk: Check, results: seq<ClusterResult>)
    requires InRange(chk, results)
    ensures SampledIn(chk, results) == SizesIn(chk, results)
    ensures KeepersIn(chk, results) == SizesIn(chk, results) - OffendersIn(chk, results)
    ensures 0 <= OffendersIn(chk, results) <= SizesIn(chk, results)
  {
    hide SampleOf;
    if results != [] { InRangeSums(chk, results[..|results| - 1]); }
  }

  /** In a scan whose every cluster reports counts in range, a fraction times all that was looked at is what was
      looked at less the offenders. */
  lemma InRangeFraction(chk: Check, scan: Scan)
    requires InRange(chk, scan.results) && SizesIn(chk, scan.results) > 0
    ensures Fraction(chk, BaselineOf(scan)) * SizesIn(chk, scan.results) as real ==
            (SizesIn(chk, scan.results) - OffendersIn(chk, scan.results)) as real
  {
    hide Fraction, BaselineOf, Ratio, InRange;
    FractionIsShare(chk, scan);
    InRangeSums(chk, scan.results);
    RatioMeans(KeepersIn(chk, scan.results), SampledIn(chk, scan.results));
  }

  // ----- Each check reads its own setting

  /** The container with other settings of its own. */
  function WithContext(c: Container, context: SecurityContext): Container {
    c.(context := Some(context))
  }

  /** Changing one setting of a container can change what one check says of it, and of no other. */
  lemma EachSettingIsItsOwn(chk: Check, pod: Pod, c: Container, image: string, flag: Option<bool>, uid: Option<int>,
                            added: seq<string>)
    requires c.context.Some?
    ensures var s := c.context.value;
            && (chk != DigestPin ==> (Offends(chk, pod, c.(image := image)) <==> Offends(chk, pod, c)))
            && (chk != NonRootUser ==>
                  (Offends(chk, pod, WithContext(c, s.(runAsNonRoot := flag, runAsUser := uid))) <==>
                   Offends(chk, pod, c)))
            && (chk != NoPrivilegeEscalation ==>
                  (Offends(chk, pod, WithContext(c, s.(allowPrivilegeEscalation := flag))) <==> Offends(chk, pod, c))
                  && (Offends(chk, pod, WithContext(c, s.(addedCapabilities := added))) <==> Offends(chk, pod, c))
                  && (Offends(chk, pod, WithContext(c, s.(privileged := flag))) <==> Offends(chk, pod, c)))
            && (chk != ReadOnlyRoot ==>
                  (Offends(chk, pod, WithContext(c, s.(readOnlyRootFilesystem := flag))) <==> Offends(chk, pod, c)))
  {
  }

  /** A pod keeps every norm when each init and regular container is pinned, known not to be root, unable to escalate
      and read-only, and the account is named. */
  lemma CleanPodKeeps(chk: Check, pod: Pod)
    requires pod.serviceAccountName != "" && pod.serviceAccountName != "default"
    requires forall c :: c in pod.initContainers || c in pod.containers ==>
               && Contains(c.image, "@sha256:")
               && c.context.Some? && c.context.value.readOnlyRootFilesystem == Some(true)
               && c.context.value.runAsUser.Some? && c.context.value.runAsUser.value > 0
               && c.context.value.allowPrivilegeEscalation == Some(false) && c.context.value.privileged != Some(true)
               && c.context.value.addedCapabilities == []
    ensures !Violates(chk, pod)
  {
    hide Contains;
  }

  /** A container with no settings of its own, in a pod with none, breaks every norm of containers but the pin. */
  lemma BareContainerViolates(chk: Check, pod: Pod, c: Container)
    requires c in pod.initContainers || c in pod.containers
    requires c.context == None && pod.context == None && chk !in {DigestPin, NamedServiceAccount}
    ensures Violates(chk, pod)
  {
    assert c in Admitted(pod) && Offends(chk, pod, c);
  }
}
