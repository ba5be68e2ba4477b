/** The admission webhook of internal/admission: baselines derived from stored scans, the checks,
    and the decision with its stability gate. */
module Admission {
  import opened Wrappers
  import opened PodSecurity
  import opened Arith

  const MIN_SAMPLE_CONTAINERS := 30
  const MIN_SAMPLE_PODS := 10
  const THRESHOLD := 0.70
  const DEFAULT_STABLE_SCANS := 3
  const MODE_ENFORCE := "enforce"

  datatype Baseline = Baseline(samplePods: int, sampleContainers: int, digestPin: real, nonRoot: real,
                               noPrivilegeEscalation: real, namedServiceAccount: real, readOnlyRootFS: real,
                               sourceScanID: string, previous: seq<Baseline>, pinned: bool)

  const ZERO_BASELINE := Baseline(0, 0, 0.0, 0.0, 0.0, 0.0, 0.0, "", [], false)

  predicate Sufficient(b: Baseline) {
    b.sampleContainers >= MIN_SAMPLE_CONTAINERS && b.samplePods >= MIN_SAMPLE_PODS
  }

  // ----- Baselines from scans

  /** One cluster's results; a scanner that failed or was absent contributes nothing. */
  datatype ClusterResult = ClusterResult(imageAudit: Option<ImageAudit>, workload: Option<Workload>)

  datatype ImageAudit = ImageAudit(totalContainers: int, noDigest: int)

  datatype Workload = Workload(totalPods: int, containers: int, nonRoot: int, allowPrivEsc: int, noReadOnlyRoot: int,
                               defaultSA: int)

  datatype Scan = Scan(id: string, results: seq<ClusterResult>)

  /** The counts the fractions are made of. */
  datatype Tally = Tally(containers: int, withDigest: int, wsContainers: int, nonRoot: int, noPrivEsc: int,
                         readOnly: int, pods: int, defaultSAPods: int)

  const NO_TALLY := Tally(0, 0, 0, 0, 0, 0, 0, 0)

  function AddImages(t: Tally, r: ClusterResult): Tally {
    if r.imageAudit.None? || r.imageAudit.value.totalContainers <= 0 then t
    else
      var a := r.imageAudit.value;
      t.(containers := t.containers + a.totalContainers, withDigest := t.withDigest + a.totalContainers - a.noDigest)
  }

  function AddWorkload(t: Tally, r: ClusterResult): Tally {
    if r.workload.None? then t
    else
      var w := r.workload.value;
      var pods := t.(pods := t.pods + w.totalPods, defaultSAPods := t.defaultSAPods + w.defaultSA);
      if w.containers <= 0 then pods
      else pods.(wsContainers := t.wsContainers + w.containers,
                 nonRoot := t.nonRoot + Min(Max(w.nonRoot, 0), w.containers),
                 noPrivEsc := t.noPrivEsc + Max(w.containers - w.allowPrivEsc, 0),
                 readOnly := t.readOnly + Max(w.containers - w.noReadOnlyRoot, 0))
  }

  function TallyOf(results: seq<ClusterResult>): Tally {
    if results == [] then NO_TALLY
    else AddWorkload(AddImages(TallyOf(results[..|results| - 1]), results[|results| - 1]), results[|results| - 1])
  }

  /** A share, clamped to [0, 1]; zero of nothing. */
  function Ratio(n: int, d: int): (r: real)
    ensures 0.0 <= r <= 1.0
  {
    if d <= 0 then 0.0
    else
      var r := n as real / d as real;
      if r < 0.0 then 0.0 else if r > 1.0 then 1.0 else r
  }

  lemma Scaled(x: real, d: real)
    requires d > 0.0
    ensures x >= 0.0 <==> x * d >= 0.0
  {
    if x < 0.0 {
      assert (-x) * d > 0.0;
    }
  }

  /** A share clears the threshold exactly when seven in ten do. */
  lemma RatioClears(n: int, d: int)
    requires d > 0
    ensures Ratio(n, d) >= THRESHOLD <==> 10 * n >= 7 * d
  {
    var r := n as real / d as real;
    assert r * d as real == n as real;
    Scaled(r - THRESHOLD, d as real);
    assert (r - THRESHOLD) * d as real == n as real - THRESHOLD * d as real;
    assert (10 * n) as real == 10.0 * n as real && (7 * d) as real == 7.0 * d as real;
  }

  /** The baseline of one scan. */
  function BaselineOf(scan: Scan): (b: Baseline)
    ensures !b.pinned && b.previous == []
  {
    var t := TallyOf(scan.results);
    Baseline(t.pods, t.containers, Ratio(t.withDigest, t.containers), Ratio(t.nonRoot, t.wsContainers),
             Ratio(t.noPrivEsc, t.wsContainers), Ratio(t.pods - t.defaultSAPods, t.pods),
             Ratio(t.readOnly, t.wsContainers), scan.id, [], false)
  }

  /** Adds up the counts of every cluster. */
  method TallyScan(results: seq<ClusterResult>) returns (t: Tally)
    ensures t == TallyOf(results)
  {
    t := NO_TALLY;
    for i := 0 to |results|
      invariant t == TallyOf(results[..i])
    {
      assert results[..i + 1][..i] == results[..i];
      var r := results[i];
      if r.imageAudit.Some? && r.imageAudit.value.totalContainers > 0 {
        var a := r.imageAudit.value;
        t := t.(containers := t.containers + a.totalContainers,
                withDigest := t.withDigest + (a.totalContainers - a.noDigest));
      }
      if r.workload.None? {
        continue;
      }
      var w := r.workload.value;
      t := t.(pods := t.pods + w.totalPods, defaultSAPods := t.defaultSAPods + w.defaultSA);
      if w.containers <= 0 {
        continue;
      }
      t := t.(wsContainers := t.wsContainers + w.containers,
              nonRoot := t.nonRoot + Min(Max(w.nonRoot, 0), w.containers),
              noPrivEsc := t.noPrivEsc + Max(w.containers - w.allowPrivEsc, 0),
              readOnly := t.readOnly + Max(w.containers - w.noReadOnlyRoot, 0));
    }
    assert results[..|results|] == results;
  }

  /** The baseline of one scan; every fraction is the share of its own sample that keeps the norm. */
  method ScanBaseline(scan: Scan) returns (b: Baseline)
    ensures b == BaselineOf(scan)
    ensures forall chk ::
              Fraction(chk, b) == Ratio(KeepersIn(chk, scan.results), SampledIn(chk, scan.results))
    ensures b.sampleContainers == SampledIn(DigestPin, scan.results)
    ensures b.samplePods == SampledIn(NamedServiceAccount, scan.results)
  {
    hide Fraction, KeepersIn, SampledIn, Ratio, TallyOf;
    var t := TallyScan(scan.results);
    FractionsAreShares(scan);
    b := Baseline(t.pods, t.containers, Ratio(t.withDigest, t.containers), Ratio(t.nonRoot, t.wsContainers),
                  Ratio(t.noPrivEsc, t.wsContainers), Ratio(t.pods - t.defaultSAPods, t.pods),
                  Ratio(t.readOnly, t.wsContainers), scan.id, [], false);
  }

  /** The scans a recompute reads: the latest Depth of the history, at least one. */
  function Read(history: seq<Scan>, depth: int): (scans: seq<Scan>)
    ensures |scans| == Min(|history|, Max(depth, 1)) && scans <= history
  {
    history[..Min(|history|, Max(depth, 1))]
  }

  /** The latest scan's baseline, with those of the scans before it, newest first. */
  ghost predicate Fresh(b: Baseline, history: seq<Scan>, depth: int) {
    var scans := Read(history, depth);
    if scans == [] then b == ZERO_BASELINE
    else
      && b == BaselineOf(scans[0]).(previous := b.previous)
      && |b.previous| == |scans| - 1
      && forall i :: 0 <= i < |b.previous| ==> b.previous[i] == BaselineOf(scans[i + 1])
  }

  /** Derives the baseline from the history, newest scan first. */
  method Recompute(history: seq<Scan>, depth: int) returns (b: Baseline)
    ensures Fresh(b, history, depth)
  {
    var scans := Read(history, depth);
    if |scans| == 0 {
      return ZERO_BASELINE;
    }
    b := ScanBaseline(scans[0]);
    for i := 1 to |scans|
      invariant b == BaselineOf(scans[0]).(previous := b.previous) && |b.previous| == i - 1
      invariant forall k :: 0 <= k < i - 1 ==> b.previous[k] == BaselineOf(scans[k + 1])
    {
      var prev := ScanBaseline(scans[i]);
      b := b.(previous := b.previous + [prev]);
    }
  }

  // ----- The checks

  datatype Check = DigestPin | NonRootUser | NoPrivilegeEscalation | NamedServiceAccount | ReadOnlyRoot

  /** The baseline fraction the check goes by. */
  function Fraction(chk: Check, b: Baseline): real {
    match chk
    case DigestPin => b.digestPin
    case NonRootUser => b.nonRoot
    case NoPrivilegeEscalation => b.noPrivilegeEscalation
    case NamedServiceAccount => b.namedServiceAccount
    case ReadOnlyRoot => b.readOnlyRootFS
  }

  /** The container breaks the check's norm. */
  predicate Offends(chk: Check, pod: Pod, c: Container) {
    match chk
    case DigestPin => !Contains(c.image, "@sha256:")
    case NonRootUser => StatusOf(pod, c) != NonRoot
    case NoPrivilegeEscalation => AllowsPrivilegeEscalation(c)
    case ReadOnlyRoot => !ReadOnlyRootFS(c)
    case NamedServiceAccount => false
  }

  /** The pod breaks the check's norm. */
  ghost predicate Violates(chk: Check, pod: Pod) {
    if chk == NamedServiceAccount then pod.serviceAccountName in ["", "default"]
    else exists c :: c in Admitted(pod) && Offends(chk, pod, c)
  }

  /** Whether the check fires on the pod, and the containers it names. */
  method Evaluate(chk: Check, pod: Pod, b: Baseline) returns (fires: bool, offenders: seq<string>)
    ensures fires <==> Fraction(chk, b) >= THRESHOLD && Violates(chk, pod)
    ensures !fires || chk == NamedServiceAccount ==> offenders == []
    ensures fires && chk == DigestPin ==>
              forall name :: name in offenders <==>
                exists c :: c in Admitted(pod) && Offends(chk, pod, c) && c.name + "=" + c.image == name
    ensures fires && chk !in {DigestPin, NamedServiceAccount} ==>
              forall name :: name in offenders <==>
                exists c :: c in Admitted(pod) && Offends(chk, pod, c) && c.name == name
  {
    offenders := [];
    if Fraction(chk, b) < THRESHOLD {
      return false, [];
    }
    if chk == NamedServiceAccount {
      return pod.serviceAccountName == "" || pod.serviceAccountName == "default", [];
    }
    var containers := Admitted(pod);
    for i := 0 to |containers|
      invariant offenders != [] <==> exists c :: c in containers[..i] && Offends(chk, pod, c)
      invariant chk == DigestPin ==> forall name :: name in offenders <==>
                  exists c :: c in containers[..i] && Offends(chk, pod, c) && c.name + "=" + c.image == name
      invariant chk != DigestPin ==> forall name :: name in offenders <==>
                  exists c :: c in containers[..i] && Offends(chk, pod, c) && c.name == name
    {
      assert containers[..i + 1] == containers[..i] + [containers[i]];
      if Offends(chk, pod, containers[i]) {
        assert containers[i] in containers[..i + 1];
        var c := containers[i];
        offenders := offenders + [if chk == DigestPin then c.name + "=" + c.image else c.name];
      }
    }
    assert containers[..|containers|] == containers;
    fires := offenders != [];
  }

  // ----- The decision

  datatype Decision = Skipped | Allowed | Warned | Denied

  /** The webhook's configuration. */
  datatype Handler = Handler(mode: string, checks: seq<Check>, stableScans: int)

  predicate Enforcing(h: Handler) {
    h.mode == MODE_ENFORCE
  }

  /** How many consecutive scans a norm must hold. */
  function Window(h: Handler): (w: int)
    ensures w >= 1
  {
    if h.stableScans <= 0 then DEFAULT_STABLE_SCANS else h.stableScans
  }

  /** The baseline is sufficient and makes the check fire on the pod. */
  ghost predicate Holds(chk: Check, pod: Pod, b: Baseline) {
    Sufficient(b) && Fraction(chk, b) >= THRESHOLD && Violates(chk, pod)
  }

  /** Consecutive scans, latest first, whose baseline makes the check fire, counted up to want. */
  method HeldScans(chk: Check, pod: Pod, b: Baseline, want: int) returns (held: int)
    requires want >= 1
    ensures b.pinned ==> held == want
    ensures !b.pinned ==> 1 <= held <= Min(want, |b.previous| + 1)
    ensures !b.pinned ==> forall i :: 0 <= i < held - 1 ==> Holds(chk, pod, b.previous[i])
    ensures !b.pinned && held < want && held <= |b.previous| ==> !Holds(chk, pod, b.previous[held - 1])
  {
    if b.pinned {
      return want;
    }
    held := 1;
    for i := 0 to |b.previous|
      invariant held == i + 1 <= want
      invariant forall k :: 0 <= k < i ==> Holds(chk, pod, b.previous[k])
    {
      if held >= want || !Sufficient(b.previous[i]) {
        break;
      }
      var fires, _ := Evaluate(chk, pod, b.previous[i]);
      if !fires {
        break;
      }
      held := held + 1;
    }
  }

  /** The check has held long enough to deny. */
  ghost predicate Gated(chk: Check, pod: Pod, b: Baseline, window: int) {
    b.pinned || (window <= |b.previous| + 1 && forall i :: 0 <= i < window - 1 ==> Holds(chk, pod, b.previous[i]))
  }

  /** The checks that would deny: they fire on the baseline, and have on those before it. */
  method Denying(h: Handler, pod: Pod, b: Baseline) returns (denies: seq<Check>, warned: bool)
    ensures forall c :: c in denies <==>
              && Enforcing(h) && c in h.checks && Fraction(c, b) >= THRESHOLD && Violates(c, pod)
              && Gated(c, pod, b, Window(h))
    ensures warned <==> exists c :: c in h.checks && Fraction(c, b) >= THRESHOLD && Violates(c, pod)
  {
    denies, warned := [], false;
    var window := Window(h);
    for i := 0 to |h.checks|
      invariant forall c :: c in denies <==>
                  && Enforcing(h) && c in h.checks[..i] && Fraction(c, b) >= THRESHOLD && Violates(c, pod)
                  && Gated(c, pod, b, window)
      invariant warned <==> exists c :: c in h.checks[..i] && Fraction(c, b) >= THRESHOLD && Violates(c, pod)
    {
      assert h.checks[..i + 1] == h.checks[..i] + [h.checks[i]];
      var chk := h.checks[i];
      var fires, _ := Evaluate(chk, pod, b);
      if fires {
        assert chk in h.checks[..i + 1];
        warned := true;
      }
      if !fires || !Enforcing(h) {
        continue;
      }
      var held := HeldScans(chk, pod, b, window);
      if held < window {
        continue;
      }
      denies := denies + [chk];
    }
    assert h.checks[..|h.checks|] == h.checks;
  }

  /** The whole decision; a pod that does not decode, or a thin baseline, is let through. */
  method EvaluateDecision(h: Handler, decoded: Option<Pod>, b: Baseline) returns (allowed: bool, decision: Decision)
    ensures allowed <==> decision != Denied
    ensures decision == Skipped <==> decoded.None? || !Sufficient(b)
    ensures decision == Denied <==>
            && decoded.Some? && Sufficient(b) && !decoded.value.dryRun
            && Enforcing(h)
            && exists c :: c in h.checks && Fraction(c, b) >= THRESHOLD && Violates(c, decoded.value)
                           && Gated(c, decoded.value, b, Window(h))
    ensures decision == Allowed <==>
            && decoded.Some? && Sufficient(b)
            && !exists c :: c in h.checks && Fraction(c, b) >= THRESHOLD && Violates(c, decoded.value)
  {
    if decoded.None? || !Sufficient(b) {
      return true, Skipped;
    }
    var pod := decoded.value;
    var denies, warned := Denying(h, pod, b);
    if |denies| > 0 {
      assert denies[0] in denies;
    }
    if pod.dryRun && |denies| > 0 {
      return true, Warned;
    }
    if Enforcing(h) && |denies| > 0 {
      return false, Denied;
    }
    return true, if warned then Warned else Allowed;
  }

  // ----- What the fractions say of the scans

  /** How many containers or pods a cluster counts for a check, and how many of them break its norm. */
  datatype Sample = Sample(size: int, offenders: int)

  /** What a cluster reports of a check; a count no scanner made is zero. */
  ghost function SampleOf(chk: Check, r: ClusterResult): Sample {
    match chk
    case DigestPin =>
      if r.imageAudit.None? then Sample(0, 0)
      else Sample(r.imageAudit.value.totalContainers, r.imageAudit.value.noDigest)
    case NonRootUser =>
      if r.workload.None? then Sample(0, 0)
      else Sample(r.workload.value.containers, r.workload.value.containers - r.workload.value.nonRoot)
    case NoPrivilegeEscalation =>
      if r.workload.None? then Sample(0, 0) else Sample(r.workload.value.containers, r.workload.value.allowPrivEsc)
    case NamedServiceAccount =>
      if r.workload.None? then Sample(0, 0) else Sample(r.workload.value.totalPods, r.workload.value.defaultSA)
    case ReadOnlyRoot =>
      if r.workload.None? then Sample(0, 0) else Sample(r.workload.value.containers, r.workload.value.noReadOnlyRoot)
  }

  /** How many of the sample keep the norm. A sample of containers counts when there are any; the offenders workload
      security reports are taken as at most all of them, and for the run-as check as at least none. */
  ghost function Keepers(chk: Check, s: Sample): int {
    if chk == NamedServiceAccount then s.size - s.offenders
    else if s.size <= 0 then 0
    else if chk == DigestPin then s.size - s.offenders
    else if s.offenders >= s.size then 0
    else if chk == NonRootUser && s.offenders < 0 then s.size
    else s.size - s.offenders
  }

  ghost function Sampled(chk: Check, s: Sample): int {
    if chk != NamedServiceAccount && s.size <= 0 then 0 else s.size
  }

  /** The sum over the clusters of a scan of those that keep the norm. */
  ghost function KeepersIn(chk: Check, results: seq<ClusterResult>): int {
    if results == [] then 0
    else KeepersIn(chk, results[..|results| - 1]) + Keepers(chk, SampleOf(chk, results[|results| - 1]))
  }

  /** The sum over the clusters of a scan of all that were looked at. */
  ghost function SampledIn(chk: Check, results: seq<ClusterResult>): int {
    if results == [] then 0
    else SampledIn(chk, results[..|results| - 1]) + Sampled(chk, SampleOf(chk, results[|results| - 1]))
  }

  /** The counts a baseline is made of are those sums. */
  lemma {:induction false} TallySums(results: seq<ClusterResult>)
    ensures var t := TallyOf(results);
            && t.containers == SampledIn(DigestPin, results) && t.withDigest == KeepersIn(DigestPin, results)
            && t.pods == SampledIn(NamedServiceAccount, results)
            && t.pods - t.defaultSAPods == KeepersIn(NamedServiceAccount, results)
            && t.wsContainers == SampledIn(NonRootUser, results) == SampledIn(NoPrivilegeEscalation, results)
               == SampledIn(ReadOnlyRoot, results)
            && t.nonRoot == KeepersIn(NonRootUser, results)
            && t.noPrivEsc == KeepersIn(NoPrivilegeEscalation, results)
            && t.readOnly == KeepersIn(ReadOnlyRoot, results)
  {
    if results != [] { TallySums(results[..|results| - 1]); }
  }

  /** Every fraction is the share of its own sample that keeps the norm. */
  lemma FractionIsShare(chk: Check, scan: Scan)
    ensures Fraction(chk, BaselineOf(scan)) == Ratio(KeepersIn(chk, scan.results), SampledIn(chk, scan.results))
    ensures BaselineOf(scan).sampleContainers == SampledIn(DigestPin, scan.results)
    ensures BaselineOf(scan).samplePods == SampledIn(NamedServiceAccount, scan.results)
  {
    hide TallyOf;
    TallySums(scan.results);
  }

  lemma FractionsAreShares(scan: Scan)
    ensures forall chk ::
              Fraction(chk, BaselineOf(scan)) == Ratio(KeepersIn(chk, scan.results), SampledIn(chk, scan.results))
    ensures BaselineOf(scan).sampleContainers == SampledIn(DigestPin, scan.results)
    ensures BaselineOf(scan).samplePods == SampledIn(NamedServiceAccount, scan.results)
  {
    hide Fraction, BaselineOf;
    FractionIsShare(DigestPin, scan);
    forall chk
      ensures Fraction(chk, BaselineOf(scan)) == Ratio(KeepersIn(chk, scan.results), SampledIn(chk, scan.results))
    {
      FractionIsShare(chk, scan);
    }
  }

  /** A clamped share, multiplied out. */
  lemma RatioMeans(n: int, d: int)
    ensures d <= 0 ==> Ratio(n, d) == 0.0
    ensures d > 0 && 0 <= n <= d ==> Ratio(n, d) * d as real == n as real
    ensures d > 0 && n < 0 ==> Ratio(n, d) == 0.0
    ensures d > 0 && n > d ==> Ratio(n, d) == 1.0
  {
    if d > 0 {
      var r := n as real / d as real;
      assert r * d as real == n as real;
      Scaled(r, d as real);
      Scaled(1.0 - r, d as real);
      assert (1.0 - r) * d as real == (d - n) as real;
    }
  }

  /** The scan looked at 30 containers and 10 pods at least, and seven in ten of what it looked at for the check
      keep its norm. */
  ghost predicate NormHolds(chk: Check, scan: Scan) {
    && SampledIn(DigestPin, scan.results) >= 30 && SampledIn(NamedServiceAccount, scan.results) >= 10
    && SampledIn(chk, scan.results) > 0
    && 10 * KeepersIn(chk, scan.results) >= 7 * SampledIn(chk, scan.results)
  }

  /** A check goes by a scan's baseline exactly when its norm holds in the scan. */
  lemma ClearsWhenNormHolds(chk: Check, scan: Scan)
    ensures Sufficient(BaselineOf(scan)) && Fraction(chk, BaselineOf(scan)) >= THRESHOLD <==> NormHolds(chk, scan)
  {
    hide Ratio, KeepersIn, SampledIn;
    FractionIsShare(chk, scan);
    var n, d := KeepersIn(chk, scan.results), SampledIn(chk, scan.results);
    if d > 0 {
      RatioClears(n, d);
    } else {
      RatioMeans(n, d);
    }
  }

  // ----- What a denial takes

  /** The norm held in each of the latest scans of the window. */
  ghost predicate HeldThroughout(chk: Check, history: seq<Scan>, window: int) {
    window <= |history| && forall k :: 0 <= k < window ==> NormHolds(chk, history[k])
  }

  lemma SamePrevious(chk: Check, b: Baseline, previous: seq<Baseline>)
    ensures Fraction(chk, b.(previous := previous)) == Fraction(chk, b)
  {
  }

  /** The gate over a freshly computed baseline is the norm holding in every scan of the window, when the provider
      reads that many; one that reads fewer never lets it open. */
  lemma GateIsHistory(chk: Check, pod: Pod, b: Baseline, history: seq<Scan>, depth: int, window: int)
    requires window >= 1 && Fresh(b, history, depth) && Violates(chk, pod)
    ensures Sufficient(b) && Fraction(chk, b) >= THRESHOLD && Gated(chk, pod, b, window) <==>
            Max(depth, 1) >= window && HeldThroughout(chk, history, window)
  {
    var scans := Read(history, depth);
    hide Violates, BaselineOf, NormHolds, Fraction;
    forall k | 0 <= k < |history|
      ensures Sufficient(BaselineOf(history[k])) && Fraction(chk, BaselineOf(history[k])) >= THRESHOLD <==>
              NormHolds(chk, history[k])
    {
      ClearsWhenNormHolds(chk, history[k]);
    }
    if scans != [] { SamePrevious(chk, BaselineOf(scans[0]), b.previous); }
    if Max(depth, 1) >= window && HeldThroughout(chk, history, window) {
      assert scans[..window] == history[..window];
      forall i | 0 <= i < window - 1 ensures Holds(chk, pod, b.previous[i]) {
        assert b.previous[i] == BaselineOf(scans[i + 1]) == BaselineOf(history[i + 1]);
      }
    }
    if scans != [] && Gated(chk, pod, b, window) && Sufficient(b) && Fraction(chk, b) >= THRESHOLD {
      forall k | 0 <= k < window
        ensures NormHolds(chk, history[k])
      {
        if k > 0 { assert Holds(chk, pod, b.previous[k - 1]); }
      }
    }
  }

  /** A pod is denied exactly when the mode enforces, the pod is not a dry run, the provider reads as many scans as
      the gate needs, and some check the pod violates held in each of the latest scans of the window. */
  method DecideFromHistory(h: Handler, depth: int, history: seq<Scan>, pod: Pod)
    returns (allowed: bool, decision: Decision)
    ensures var window := if h.stableScans <= 0 then 3 else h.stableScans;
            !allowed <==>
            && h.mode == "enforce" && !pod.dryRun && Max(depth, 1) >= window
            && exists c :: c in h.checks && Violates(c, pod) && HeldThroughout(c, history, window)
  {
    var b := Recompute(history, depth);
    forall c | c in h.checks && Violates(c, pod)
      ensures Sufficient(b) && Fraction(c, b) >= THRESHOLD && Gated(c, pod, b, Window(h)) <==>
              Max(depth, 1) >= Window(h) && HeldThroughout(c, history, Window(h))
    {
      GateIsHistory(c, pod, b, history, depth, Window(h));
    }
    allowed, decision := EvaluateDecision(h, Some(pod), b);
  }

  /** A provider that reads fewer scans than the gate needs never lets it open. */
  lemma ShallowNeverOpens(chk: Check, pod: Pod, b: Baseline, history: seq<Scan>, depth: int, window: int)
    requires Fresh(b, history, depth) && Max(depth, 1) < window
    ensures !Gated(chk, pod, b, window)
  {
  }
}
