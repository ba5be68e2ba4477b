# Fleetsweeper, verified

Dafny models of the parts of Fleetsweeper whose promises no test can settle, with proofs of those
promises. `dafny verify dfyconfig.toml` checks the whole project.

- **Cohorts** (`RealSums`, `Matrices`, `Grids`, `Jacobi`, `ClassicalMds`, `Linkage`, `Dendrogram`, `CohortCut`,
  `SmallCohorts`, `Cohorts`, `Leaves`, `Seriation`): pairwise distances, double centring, the cyclic Jacobi
  eigensolver, average-linkage clustering with incremental tables, the choice of the cut, the cut itself,
  folding of small groups, leaf order and seriation. The loops run on arrays and maps and are proved against
  the mathematics they stand for: vᵀ a v, the Gram matrix, the mean distance over leaf pairs.
- **Findings and score** (`FieldTable`, `Findings`, `Pruning`, `PruningFacts`, `PruningOrder`, `PruningLimits`,
  `ScoreLedger`, `LedgerFacts`, `LedgerCaps`): the field table, cluster health, the two-pass pruning of redundant findings,
  and the cost ledger behind the fleet score.
- **Statistics** (`Regression`, `Trends`, `RobustStats`, `SetNorms`, `WhatIfFix`): the two least-squares fits, the
  direction drawn from a trend, the MAD detector, the set detector, and the consensus what-if over results shared
  by reference.
- **Controller** (`Backoff`, `ScanController`): what one reconcile decides and remembers, and a state machine of
  reconciles, scans and deletions over whole runs.
- **Admission** (`PodSecurity`, `Admission`, `AdmissionFacts`, `BaselineCache`): baselines, checks and the stability gate over any
  scan history, and a state machine of the cache with shared, failing and abandoned recomputes.
- **Bundles** (`Manifest`, `SealedBundle`, `BundlePaths`, `BundleArchive`): writing, scanning and checking the
  manifest, the seal, and the layout of the archive. Go's `path.Clean` and `path.Join` are modelled as documented.

`Sorting`, `SetFacts`, `Populations`, `Arith` and `Wrappers` hold what several of them need.

## Conventions

- A `float64` is a `real`; rounding, NaN and infinities are not modelled, except that the largest float is a
  constant where the clustering starts its search from it. `math.Sqrt` is a parameter that is non-negative and
  squares back. SHA-256 and HMAC are parameters with 32-byte results; no theorem assumes them free of
  collisions, and those that need it name the collision.
- Go map iteration is a nondeterministic choice of a key not yet visited, so every result holds for every order.
  Library sorts are an insertion sort that keeps the values and puts them in order.
- Clocks, scan outcomes, store failures, cancellations and stale caches are events or parameters. The work
  queue's promise of one worker per key, and singleflight's of one call in flight, are the enabling conditions
  of the two state machines; a mutex section is one step. A deletion's cancel, made after its mutex section, is part of
  that step (`ScanController.LateCancelIsLateDeletion`).
- Constants and the field table are transcribed from the repository; where a result depends on one, its contract
  states the number.
- Error messages, log lines, events and metrics carry no state and are left out.

## Where the code and its comments disagree

The model follows the code.

- `agglomerate` says fewer than two distinct points all land in group 0. Three or more identical points are
  split into as many groups as the limits allow (`SmallCohorts.IdenticalPointsSplit`).
- `chooseK` says its result is at least 2; it is 1 for fewer than two merges (`CohortCut.ChooseK`).
- `dropRedundant` says the order of the findings does not matter. It does not for what is dropped, under the
  hypotheses of `PruningOrder.OrderIrrelevant`, and does for the norm an absolute finding adopts
  when it states norm findings on both fields of host namespaces (`PruningLimits.AdoptionOrderFree` and
  `PruningLimits.ContestedDependsOnOrder`).
- `detectNumericOutliers` says it emits nothing when the MAD is zero; it then judges by the exact median
  (`RobustStats.ZeroMadIsQuiet`).
- `detectSetOutliers` says an item must appear in a share of the clusters; it counts an item as often as it is
  listed (`SetNorms.OneClusterIsConsensus`).
- `retryDelay` says it is capped at the interval; past 60e9 * 2^27 ns the doubling wraps (`Backoff.RetryDelayExact`).
- `forget` says a deletion drops the schedule; it can come back when the deletion lands before a reconcile that
  has read the resource puts its scan in flight, or between the scan's return and its recording
  (`ScanController.DeletionDropsSchedule`).
- `StoreBaselineProvider` says it derives the baseline at most once per lifetime; it can do so twice
  (`BaselineCache.TwiceWithinLifetime`).
- `memberObject` is called the inverse of `memberOf`; it is for members that split into one non-empty part per
  key (`SetNorms.MemberRoundTrip`).

## Model

| member | source | states |
|---|---|---|
| Jacobi.RotationKeeps | internal/cohort/mds.go:190-221 | One rotation of any symmetric matrix of any size keeps v orthogonal, m symmetric and equal to vᵀ a v, keeps the trace, and lowers the off-diagonal sum by exactly the square of the annihilated entry |
| Jacobi.StepRotates | internal/cohort/mds.go:203-215 | The entry-by-entry update of m is the two-sided plane rotation of a symmetric matrix |
| Jacobi.Angle | internal/cohort/mds.go:196-202 | The tangent, cosine and sine computed are those of an angle of at most 45 degrees that annihilates the entry |
| Jacobi.RotateMatrix | internal/cohort/mds.go:203-215 | The in-place loop leaves exactly the rotated matrix |
| Jacobi.RotateVectors | internal/cohort/mds.go:216-220 | The in-place loop rotates columns p and q of the vectors and nothing else |
| Jacobi.Sweep | internal/cohort/mds.go:190-222 | A sweep goes through n(n-1)/2 + 1 matrices, one step per pair above the diagonal in row order; each step leaves its entry zero and lowers the off-diagonal sum by exactly the square of that entry, or changes nothing if it was zero; the decomposition and the trace are kept |
| Jacobi.SweepFalls | internal/cohort/mds.go:190-222 | A sweep over any matrix that is not diagonal lowers its off-diagonal sum |
| Jacobi.OffDiagonal | internal/cohort/mds.go:181-186 | The coded sum is the sum of squares above the diagonal |
| Jacobi.WithinTolerance | internal/cohort/mds.go:168-178 | The tolerance is 1e-24, or 1e-24 of the squared norm if that is more |
| Jacobi.JacobiEigen | internal/cohort/mds.go:165-229 | Orthonormal vectors, values that are their quadratic forms and sum to the trace, every residual within what the last sweep left off the diagonal; every sweep starts above the tolerance and lowers that sum, for two points to zero, and the last leaves it within the tolerance unless all 100 ran; the input is not modified |
| Jacobi.ResidualBound | internal/cohort/mds.go:181-189 | A returned pair misses the eigenvalue equation by at most the off-diagonal sum, in squared length |
| Jacobi.Parseval | internal/cohort/mds.go:165-229 | The vectors keep the sum of squares of any vector |
| ClassicalMds.Euclidean | internal/cohort/agglomerate.go:48-63 | The distance of two vectors, the shorter padded with zeros |
| ClassicalMds.PairwiseDistances | internal/cohort/agglomerate.go:30-44 | A fresh symmetric matrix of the distances of all pairs, zero on the diagonal |
| ClassicalMds.DoubleCenter | internal/cohort/mds.go:123-147 | The matrix returned is -1/2 J E J of the squared distances E, for any size |
| ClassicalMds.CenteredShape | internal/cohort/mds.go:123-147 | The centred matrix is symmetric and each of its rows sums to zero |
| ClassicalMds.CenteringGivesGram | internal/cohort/mds.go:123-147 | For squared Euclidean distances it is the Gram matrix of the mean-centred vectors |
| ClassicalMds.ProfilesGiveGram | internal/cohort/agglomerate.go:30-63 | The same for the distances of cluster profiles with feature vectors of any, even different, lengths |
| ClassicalMds.EigenvaluesNonNegative | internal/cohort/mds.go:92-119 | Every eigenvalue found for such a matrix is non-negative |
| ClassicalMds.EigenvaluesSumToScatter | internal/cohort/mds.go:92-119 | Together they are the total squared deviation of the features |
| Dendrogram.BuildDendrogram | internal/cohort/agglomerate.go:78-151 | The incremental tables compute average linkage as defined: each merge joins the first pair, by distance and then ids, of the active clusters at their mean leaf distance, whatever the map order; n-1 merges when all distances are below the largest float |
| Dendrogram.JoinClosest | internal/cohort/agglomerate.go:99-149 | One step keeps every table entry equal to the mean distance over the leaf pairs of its two clusters |
| Dendrogram.FindClosest | internal/cohort/agglomerate.go:100-119 | The scan over map keys returns the lexicographically least closest pair |
| Linkage.AverageLinkageUnique | internal/cohort/agglomerate.go:109-114 | The definition leaves no choice: there is one merge sequence of each length |
| Linkage.AverageOfUnion | internal/cohort/agglomerate.go:128-139 | The mean distance to a union is the size-weighted mean of the distances to its parts, the identity behind the incremental update |
| Linkage.MergeDistancesAscend | internal/cohort/agglomerate.go:78-151 | Merge distances never decrease |
| Linkage.ApartAfterMerge | internal/cohort/agglomerate.go:78-151 | After every merge the clusters left are at least its distance apart |
| Linkage.LinkageExt | internal/cohort/agglomerate.go:78-151 | Equal distances give equal dendrograms |
| CohortCut.ChooseK | internal/cohort/agglomerate.go:155-178 | The admissible count with the largest gap, the largest such count on ties; 1 for fewer than two merges |
| CohortCut.ChoiceIsBest | internal/cohort/agglomerate.go:155-178 | On a real dendrogram the scan always finds that best count |
| CohortCut.Find | internal/cohort/agglomerate.go:217-222 | Following parents ends, at the cluster that holds the point |
| CohortCut.Replay | internal/cohort/agglomerate.go:188-199 | The parent array after replaying the first merges describes exactly the clusters they left |
| CohortCut.CutDendrogram | internal/cohort/agglomerate.go:183-214 | One number per cluster left standing, numbered from 0 in order of first appearance |
| CohortCut.ExactlyK | internal/cohort/agglomerate.go:183-214 | Cutting a complete dendrogram at 2 <= k <= n gives exactly k non-empty groups 0..k-1 |
| CohortCut.SameGroupMeansJoined | internal/cohort/agglomerate.go:183-214 | Two points share a group exactly when the first n-k merges joined them |
| CohortCut.GroupsApart | internal/cohort/agglomerate.go:155-214 | Any two groups left are at least the first withheld merge distance apart in average linkage |
| CohortCut.Renumber | internal/cohort/agglomerate.go:288-300 | Group ids become 0, 1, ... in order of first appearance, the grouping unchanged |
| SmallCohorts.ClosestGroup | internal/cohort/agglomerate.go:265-284 | The group of a nearest point outside, or none when every distance is at the float limit |
| SmallCohorts.MergeSmallCohorts | internal/cohort/agglomerate.go:227-261 | Ends in a coarsening of the input, reached by folding a smallest group below the minimum size into the group of a nearest point, step by step and whichever the map gives, and renumbered; then every group has the minimum size, or one group is left, or a smallest group below it is out of reach of all others |
| SmallCohorts.SettledGroups | internal/cohort/agglomerate.go:227-261 | With distances below the float limit: all groups have the minimum size, or there is one |
| SmallCohorts.Agglomerate | internal/cohort/agglomerate.go:10-27 | The groups are the cut of the profiles' average-linkage dendrogram at the best count |
| SmallCohorts.IdenticalPointsSplit | internal/cohort/agglomerate.go:5-10 | Identical points all land in group 0 only when there are two of them: the code departs from its comment for three or more |
| Cohorts.SplitByTag | internal/cohort/cohort.go:119-128 | Tagged and untagged profiles, each in input order, none lost |
| Cohorts.TaggedCohorts | internal/cohort/cohort.go:131-145 | One cohort per tag, holding exactly the names under it |
| Cohorts.NameAutoCohorts | internal/cohort/cohort.go:159-185 | One cohort per group with its names sorted, numbered auto-1, auto-2, ... by first member |
| Cohorts.DigitsMean | internal/cohort/cohort.go:159-185 | The number in an auto cohort's name is its decimal numeral |
| Cohorts.AutoCohortsReachSize | internal/cohort/agglomerate.go:227-261 | With distances below the float limit every auto cohort reaches the minimum size, or holds every untagged profile |
| Cohorts.Finalize | internal/cohort/cohort.go:198-209 | The same cohorts with members sorted, ordered by source and then name |
| Cohorts.CohortLessMeans | internal/cohort/cohort.go:202-207 | Cohorts are ordered by their source as written, and then by name |
| Cohorts.Assign | internal/cohort/cohort.go:73-116 | Every profile lands in exactly one cohort: the cohorts hold the profile names with multiplicity, tagged ones under their tag, the rest in one fleet cohort or in cohorts auto-1, auto-2, ...; these are the groups of the best cut of the dendrogram, folded until nothing is left to fold, and below the float limit each reaches the minimum size or holds every untagged profile; an option of zero means 6 clusters, size 3 or 8 cohorts |
| Leaves.Walk | internal/cohort/mds.go:312-323 | The stack walk ends with the root's leaves, left to right |
| Leaves.LeafOrder | internal/cohort/mds.go:301-336 | A permutation of 0..n-1: the last merge's leaves, then the points it does not reach in index order |
| Leaves.LeafOrderContiguous | internal/cohort/mds.go:301-336 | In a complete dendrogram the leaves of every merge are one contiguous run |
| Seriation.Seriate | internal/cohort/mds.go:276-295 | The output is every profile name once, in the order of its cohort's first appearance among the dendrogram's leaves and, within the cohort, of the leaves |
| Seriation.CohortIsOneRun | internal/cohort/mds.go:276-295 | Every cohort is one run, in leaf order inside, and nothing of it stands outside the run |
| Seriation.SeriatedInOrder | internal/cohort/mds.go:276-295 | Gathering names into blocks orders them by the first appearance of their cohort and then by their own place |
| Seriation.SeriateConserves | internal/cohort/mds.go:276-295 | Gathering into blocks loses and repeats no name |
| Findings.ClusterSeverityCounts | internal/report/cluster_score.go:101-120 | Per severity, the findings on the cluster and the marks naming it |
| Findings.GenerateClusterHealth | internal/report/findings.go:423-455 | The health of every cluster in report order: critical exactly when a finding or mark charges it so, degraded exactly when one charges a warning and none is critical, else unknown when scanners were blind |
| Findings.StatusMeans | internal/report/findings.go:423-455 | Critical exactly when some finding or mark charges the cluster as critical, degraded exactly when one charges a warning and none is critical, and without either unknown exactly when a scanner was blind |
| FieldTable.RestatedIsShallower | internal/report/fields.go:56-341 | The RedundantWith table has no cycle |
| FieldTable.SevereRestatesLeaves | internal/report/fields.go:56-341 | A field declared above info is restated only by fields that restate nothing |
| FieldTable.CountedOnce | internal/report/fields.go:56-341 | No two fields are counted by one rule, but for the two of host namespaces |
| Pruning.BuildIndex | internal/report/findings.go:207-225 | First absolute finding per cluster and rule, last norm finding per cluster and field, where each rule fired and each norm is held |
| Pruning.DropCounted | internal/report/findings.go:254-268 | The first pass drops what a singling absolute finding counts no less severely, which adopts the first such norm if it had none |
| Pruning.DropRestated | internal/report/findings.go:269-293 | The second pass, target by target, including the drops of lesser norm findings it displaces |
| Pruning.DropRedundant | internal/report/findings.go:206-302 | Both passes and the in-place compaction leave exactly the pruned list |
| PruningFacts.SeverityNeverHidden | internal/report/findings.go:206-302 | For every finding given, one at least as severe is left on its cluster, through chains of witnesses of any length |
| PruningFacts.PrunedIsKept | internal/report/findings.go:294-301 | What is left is what was given but for adopted norms, and every absolute finding is left |
| PruningFacts.HealthUnchanged | internal/report/findings.go:206-302 | When norm findings carry no marks, the health of every cluster is the same before and after pruning |
| PruningOrder.DropsTheRedundant | internal/report/findings.go:206-293 | With one norm finding per cluster and field, one absolute finding per cluster and rule, and severities the table allows, a finding is dropped exactly when it is redundant by a definition over the set of findings |
| PruningOrder.OrderIrrelevant | internal/report/findings.go:204-206 | So what is dropped does not depend on the order of the findings |
| PruningLimits.AdoptedNormDependsOnOrder | internal/report/findings.go:204-205 | Findings whose order decides the norm an absolute finding adopts, against the comment: host_network_pods and host_pid_pods share a rule |
| PruningLimits.AdoptionOrderFree | internal/report/findings.go:204-268 | Under the hypotheses of the order theorem, every finding carries the same norm after either order unless it is an absolute finding that states norm findings of its cluster on both of those fields |
| PruningLimits.ContestedDependsOnOrder | internal/report/findings.go:204-268 | and then swapping those two norm findings changes the norm it adopts |
| PruningLimits.DropsDependOnOrder | internal/report/findings.go:269-293 | Without the severities the table allows, what is dropped depends on the order too |
| PruningLimits.MarkedNormHidesStatus | internal/report/findings.go:423-437 | A norm finding that carried marks would take another cluster's status with it |
| ScoreLedger.ScoreAttribution.AddTerm | internal/report/score_attribution.go:123-142 | A term with its entries scaled alike so that they sum to min(raw, cap); nothing when it costs nothing |
| ScoreLedger.ScoreAttribution.AddSeverityTerm | internal/report/score_attribution.go:167-189 | One entry per rule and cluster pair, charged per times its findings, the whole capped |
| ScoreLedger.ScoreAttribution.AddClusterHealthTerms | internal/report/score_attribution.go:194-212 | One entry for each critical cluster and one for each degraded or strained cluster, in order, each of its full share of the fleet |
| ScoreLedger.ScoreAttribution.AddVersionSkewTerm | internal/report/score_attribution.go:216-234 | 10 for critical skew, 3 for warning, in one entry charged to the version/skew rule and no cluster |
| ScoreLedger.ScoreAttribution.AddWorstNodeTerm | internal/report/score_attribution.go:239-260 | 10 times the worst share of unhealthy nodes, in one entry charged to the first cluster that has it |
| ScoreLedger.ComputeScoreAttribution | internal/report/score_attribution.go:74-102 | A balanced ledger that lists exactly the terms that cost, in order, each costing its raw cost up to its cap; its total is the fleet cost in closed form, its entries pinned term by term, with the sums by cluster and by rule |
| ScoreLedger.BalancedMore | internal/report/score_attribution.go:123-142 | Adding a term keeps: entries sum to their term, terms to the total, every entry has a term |
| LedgerFacts.LedgerConserves | internal/report/score_attribution.go:87-101 | All entries sum to the total, as do the cluster sums with the cluster-less entries, and the rule sums with the rule-less ones, in any order of keys |
| LedgerFacts.AddingAFindingNeverHelps | internal/report/score_attribution.go:74-102 | One more finding anywhere, with health made anew, never lowers the total |
| LedgerFacts.AddingAMarkNeverHelps | internal/report/score_attribution.go:74-102 | Nor does one more mark anywhere |
| LedgerFacts.MoreNeverCostsLess | internal/report/cluster_score.go:101-120 | No list that counts and charges at least as much is cheaper |
| LedgerCaps.FindingsTake | internal/report/score_attribution.go:157-189 | The entries of critical, warning and info findings sum to 6, 1.5 and 0.25 a finding, or to 36, 24 and 5 where that is less |
| LedgerCaps.SeverityEntriesMean | internal/report/score_attribution.go:57-58 | One entry for each rule and cluster with findings of the severity, its raw cost theirs, and every cost in one proportion to its raw cost |
| LedgerCaps.ClustersTake | internal/report/score_attribution.go:191-212 | An all critical fleet loses 20 points and an all degraded one 10, others in proportion to how many clusters are |
| LedgerCaps.FleetTakes | internal/report/score_attribution.go:214-260 | Version skew takes 10 or 3 points by severity, and the worst node 10 in proportion |
| LedgerCaps.WorstFractionMeans | internal/report/score_attribution.go:239-257 | The worst fraction is at least the share of unhealthy nodes of every cluster and the share of one |
| LedgerCaps.TotalBounded | internal/report/score_attribution.go:74-102 | No fleet loses more than 105 points |
| Regression.Ols | internal/report/forecast.go:111-147 | Zeros below two points, the mean for equal xs, else the least-squares line with its R² and standard error |
| Regression.NormalIsLeast | internal/report/forecast.go:130-131 | The line returned has a squared error at most that of every other line |
| Regression.BestLineIsUnique | internal/report/forecast.go:130-131 | and no other line is as good when the xs differ |
| Regression.CodedLineIsNormal | internal/report/forecast.go:124-131 | The coded slope and intercept satisfy the normal equations |
| Regression.ScatterZero | internal/report/forecast.go:126-129 | The denominator is zero exactly when all xs are equal |
| Regression.RSquared | internal/report/forecast.go:133-142 | R² is in [0, 1], and explains the scatter of y |
| Regression.TrendLine | internal/report/trend.go:254-283 | The trend's line satisfies the same equations, with its R² and the sums its test needs, and is fitted exactly when the times differ |
| Regression.BothFitsAgree | internal/report/trend.go:270-271 | So the two formulas give one slope and intercept |
| Regression.ExplainedBySlope | internal/report/trend.go:266-282 | The scatter of y is the residual sum plus the scatter of x times the slope squared |
| Trends.Tested | internal/report/trend.go:299-312 | The t-statistic is two or more, or infinite for a perfect fit, in terms of the sums behind the standard error |
| Trends.TestIsRSquared | internal/report/trend.go:299-314 | The t-test is a test on R²: it is passed exactly from 4 / (n + 2) on |
| Trends.GatesCross | internal/report/trend.go:224-231 | From 14 points on the bound on R² implies the t-test, and up to 14 the t-test implies the bound |
| Trends.FitDirection | internal/report/trend.go:249-329 | A direction other than stable exactly when there are five points that differ from first to last time, the values are not all nought, the fit moves them by five percent per scan and explains enough of them; worsening when the slope has the bad sign |
| RobustStats.DetectNumericOutliers | internal/report/outlier.go:259-333 | Flags exactly the clusters beyond the threshold, or off the median of a population with no spread when six in ten are at it; none below eight values |
| RobustStats.FlagsMeans | internal/report/outlier.go:282-333 | Free of division: of eight clusters or more, flagged are those 0.6745 of whose distance from the median exceeds the threshold in MADs, or with a zero MAD all off the median where six in ten are at it |
| RobustStats.ExactOutliers | internal/report/outlier.go:339-380 | With a zero MAD, all clusters off the median, when at least 0.6 of them are at it |
| RobustStats.ZeroMadIsQuiet | internal/report/outlier.go:254-258 | Against the comment, a zero MAD flags nothing exactly when all values are equal to the median or fewer than six in ten are |
| RobustStats.ZeroMadFlags | internal/report/outlier.go:254-258 | A population of eight in which it flags a cluster |
| RobustStats.ComputeMAD | internal/report/outlier.go:785-791 | The median of the absolute deviations |
| RobustStats.MedianResists | internal/report/outlier.go:282-283 | If more than half of the values lie in [lo, hi] so does the median, whatever the others are |
| RobustStats.MadResists | internal/report/outlier.go:785-791 | and the MAD is at most hi - lo |
| RobustStats.AtMostHalfFlagged | internal/report/outlier.go:282-332 | With a threshold of 0.6745 or more, no more than half of any population is flagged |
| RobustStats.AllFlaggedBelowScale | internal/report/outlier.go:307-310 | For every smaller threshold some population of eight is flagged entirely |
| ScanController.Controller.BeginReconcile | internal/controller/controller.go:340-366 | Scans exactly when the spec is valid and not paused and both the status and the remembered time allow it now; else, where only time is missing, waits until the first moment both do; a write keeps what the status says of past scans, and none is made while only memory holds the scan back |
| ScanController.Controller.DueTime | internal/controller/controller.go:558-579 | The first moment from now on at which both the status and the remembered time allow a scan; the cache is behind only when the remembered time is what is waited for |
| ScanController.Controller.Forget | internal/controller/controller.go:258-271 | The Deleted step of the state machine: the schedule is dropped and a scan in flight is marked canceled |
| ScanController.Controller.StartScan | internal/controller/controller.go:463-467 | The Registered step: the scan is in flight |
| ScanController.Controller.EndScan | internal/controller/controller.go:468-494 | The ScanReturned step: the reconcile ends without an outcome exactly when the scan was canceled by a deletion or the process stops |
| ScanController.Controller.RecordFailure | internal/controller/controller.go:497-519 | The ScanRecorded step of a failure; the status counts it and shows the time remembered |
| ScanController.Controller.RecordSuccess | internal/controller/controller.go:522-551 | The ScanRecorded step of a success; the status resets the failures and shows the time remembered |
| ScanController.NoEarlyScan | internal/controller/controller.go:340-392 | In every run, while a resource keeps its generation and is not deleted, no scan starts before the wait after the last recorded one is over, however stale the status read |
| ScanController.NoScanWithinBackoff | internal/controller/controller.go:497-596 | That wait is the interval, or a minute doubled for each failure after the first up to it, whenever the doubling does not wrap |
| ScanController.DeletionDropsSchedule | internal/controller/controller.go:256-271 | After any run that ends in a deletion, the schedule can come back without the resource being read again exactly when the deletion meets a reconcile that has read a scannable resource but not yet put a scan in flight, or one that has taken the outcome and not yet recorded it |
| ScanController.ScheduledWhenRecorded | internal/controller/controller.go:483-551 | After a deletion, until the resource is read or deleted again, it is scheduled exactly when a scan has been recorded since, by a reconcile the deletion met that way |
| ScanController.DeletionMeets | internal/controller/controller.go:294-392 | Runs in which the deletion meets a reconcile at each of its stages |
| ScanController.LateCancelIsLateDeletion | internal/controller/controller.go:258-271 | A scan that returns between a deletion's hold of the mutex and its cancel leaves the state of a deletion after the return |
| Backoff.RetryDelay | internal/controller/controller.go:590-596 | The loop with the wrap-around of 64-bit nanoseconds |
| Backoff.RetryDelayExact | internal/controller/controller.go:588-596 | It returns what its comment promises exactly when there are at most 28 failures, or the interval is at most 60e9*2^27 ns, or there are at least 31 failures and the interval is at most the value the wrapped delay peaks at |
| Backoff.NegativeDelay | internal/controller/controller.go:590-596 | With the longest interval the 29th delay is negative |
| Admission.ScanBaseline | internal/admission/baseline.go:144-187 | The counts of one scan, and for each check the clamped share of its own sample, summed over the clusters, that keeps its norm |
| Admission.FractionIsShare | internal/admission/baseline.go:173-187 | Each fraction is the share of its own sample, summed over the scan's clusters, that keeps the check's norm |
| Admission.ClearsWhenNormHolds | internal/admission/baseline.go:144-187 | A check goes by a scan's baseline exactly when the scan looked at 30 containers and 10 pods and ten times those that keep its norm reach seven times those it looked at |
| AdmissionFacts.EachCountIsItsOwn | internal/admission/baseline.go:153-187 | More offenders in one count a cluster reports lower, or leave, the fraction of one check and leave every other as it is |
| AdmissionFacts.InRangeFraction | internal/admission/baseline.go:173-187 | Where counts are in range, a fraction times the sample is the sample less the offenders |
| Admission.Recompute | internal/admission/baseline.go:118-138 | The latest scan's baseline with those of the scans before it, newest first, up to Depth |
| Admission.RatioClears | internal/admission/baseline.go:244-256 | A share clears the threshold exactly when seven in ten do |
| Admission.Evaluate | internal/admission/checks.go:34-154 | A check fires exactly when its fraction clears the threshold and the pod breaks its norm, and names exactly the containers that do |
| AdmissionFacts.EachSettingIsItsOwn | internal/admission/checks.go:30-154 | An image, a run-as, an escalation and a root filesystem setting of a container each change what one check says of it and no other |
| AdmissionFacts.CleanPodKeeps | internal/admission/checks.go:30-154 | A pod with a named account whose containers are pinned, not root, unable to escalate and read-only breaks no norm |
| PodSecurity.ContainerWins | internal/podsec/podsec.go:34-57 | The container's setting wins over the pod's, which applies where the container has none |
| PodSecurity.OwnStatus | internal/podsec/podsec.go:58-74 | A container that sets its user and runAsNonRoot has the same status in every pod: root exactly for user 0, and else not root exactly when its user is above 0 or it says so |
| PodSecurity.CannotEscalate | internal/podsec/podsec.go:75-95 | A container cannot gain privileges exactly when it says so, is not privileged and adds no capability that grants it |
| PodSecurity.AdminNames | internal/podsec/podsec.go:85-91 | Those are SYS_ADMIN and ALL, in any case and with or without the prefix, and no other |
| Admission.HeldScans | internal/admission/handler.go:207-222 | How many consecutive scans, the latest first, the check has held for, up to the window |
| Admission.EvaluateDecision | internal/admission/handler.go:136-201 | Skipped without a pod or a sufficient baseline; denied exactly when the mode enforces, the pod is no dry run, and a firing check passed its gate; allowed exactly when none fires |
| Admission.DecideFromHistory | internal/admission/handler.go:148-195 | Over any stored history, with a freshly computed baseline of any depth, a pod is denied exactly when the mode is enforce, it is no dry run, the depth covers the window, and for some check it violates each of the latest scans of the window looked at 30 containers and 10 pods and seven in ten kept the norm; the window is 3 scans unless set |
| Admission.GateIsHistory | internal/admission/handler.go:207-222 | The gate over previous baselines is the norm holding in every scan of a window no longer than the depth |
| Admission.ShallowNeverOpens | internal/admission/baseline.go:48-51 | A provider that keeps fewer scans than the window never lets a denial through |
| BaselineCache.StoreBaselineProvider.Look | internal/admission/baseline.go:83-89 | What a caller sees under the mutex, as the step of the state machine |
| BaselineCache.StoreBaselineProvider.Refresh | internal/admission/baseline.go:95-105 | How a recompute ends, as the step of the state machine: a failure keeps the last good baseline |
| BaselineCache.StepKeepsSound | internal/admission/baseline.go:82-113 | Every step keeps: an answer is no older than what its caller saw, which is no older than what it last read |
| BaselineCache.ReadIsCommitted | internal/admission/baseline.go:82-113 | Every baseline returned is the zero one or one a recompute committed before |
| BaselineCache.ReadsNeverGoBack | internal/admission/baseline.go:82-113 | One caller's reads never go back to an earlier commit, in every interleaving with failures and cancellations |
| BaselineCache.WaiterGetsTheRecompute | internal/admission/baseline.go:91-113 | A caller that joined can return once the recompute is delivered, and is returned what was the latest commit then; a commit made since it joined is part of that exactly when it came before the delivery |
| BaselineCache.WaiterGetsTheResult | internal/admission/baseline.go:91-113 | When the recompute ends while the caller waits, that is its baseline, or after a failure the last good one |
| BaselineCache.ReturnedWasServed | internal/admission/baseline.go:91-113 | Every answer returned was joined and delivered |
| BaselineCache.CancelReturnsTheLook | internal/admission/baseline.go:91-113 | A caller that gives up is returned what was the latest commit when it called |
| BaselineCache.FreshIsAnsweredAtOnce | internal/admission/baseline.go:82-90 | A call is answered at once, with the latest commit, exactly when the last refresh, successful or not, is less than a lifetime ago |
| BaselineCache.RecomputesNeverOverlap | internal/admission/baseline.go:91-106 | Between the starts of two recomputes the first has ended |
| BaselineCache.TwiceWithinLifetime | internal/admission/baseline.go:40-44 | Against the comment, the baseline is derived twice within one lifetime in this run |
| BaselineCache.EarlyStartLookedBefore | internal/admission/baseline.go:40-44 | That happens only when the caller found the cache stale before the refresh it did not see |
| BaselineCache.EarlyStartExactly | internal/admission/baseline.go:82-113 | Within a lifetime of the last refresh a recompute can start exactly when some caller looked before that refresh and has not joined yet |
| SetNorms.DetectSetOutliers | internal/report/outlier.go:473-547 | The sorted consensus of the items counted at least six tenths as often as clusters report, and for every cluster how many items it lists and what it lacks; flagged exactly when it lacks something |
| SetNorms.PrepareFlat | internal/report/outlier.go:588-614 | The projected member set: the names of the objects, each once |
| SetNorms.NamedMeans | internal/report/outlier.go:595-611 | A member is projected exactly when some object's values say it, and once |
| SetNorms.NothingNamed | internal/report/outlier.go:608-611 | Objects that name nothing give an empty set, but no ingress classes at all |
| SetNorms.MemberRoundTrip | internal/report/whatif.go:292-303 | memberOf gives back the member memberObject was built from exactly when it splits into one non-empty part per key |
| SetNorms.CountsHolders | internal/report/outlier.go:468-475 | The count is never below the number of clusters that hold an item, and is that number exactly when no cluster lists the item twice |
| SetNorms.OneClusterIsConsensus | internal/report/outlier.go:468-475 | Where one does, it can make an item the consensus alone, against the comment |
| WhatIfFix.ApplyFix | internal/report/whatif.go:162-209 | A fresh copy with one payload changed and the rest shared; the input results are not modified |
| WhatIfFix.AddMembers | internal/report/whatif.go:256-275 | Members added as strings, or as objects to the projected array, refused where those cannot be built |
| WhatIfFix.PlainFixTakes | internal/report/whatif.go:258-265 | A plain list becomes its old items and the missing ones |
| WhatIfFix.ProjectedFixTakes | internal/report/whatif.go:269-274 | A projected set becomes its old members and the missing ones exactly when every missing member splits |
| WhatIfFix.WhenFixTakes | internal/report/whatif.go:256-303 | A fix toward the consensus takes always on a plain field and on crd names, on service names exactly when no missing name starts with a slash, and never on ingress classes |
| WhatIfFix.ConsensusUnmoved | internal/report/whatif.go:256-275 | Giving a cluster consensus members it lacks moves no item in or out of the consensus |
| WhatIfFix.FixClearsOnlyIts | internal/report/whatif.go:118-141 | The consensus is the same, the fixed cluster's flag is cleared and no other flag changes |
| WhatIfFix.WhatIf | internal/report/whatif.go:87-145 | Applied exactly when the cluster is in the population and its payload can be built; who is flagged before and after is what the detector says of the results and of the patched copy; a fix that takes clears its own cluster alone and flags no one, and the results given are left alone |
| Manifest.WriteManifest | internal/seal/seal.go:139-154 | One line per file but the two reserved ones, sorted by path |
| Manifest.BytesLessMeans | internal/seal/seal.go:139-147 | The paths are in the byte order of a dictionary |
| Manifest.CoversUnique | internal/seal/seal.go:136-154 | The manifest is a function of the files |
| Manifest.CheckManifest | internal/seal/seal.go:160-199 | Malformed, or exactly the missing, altered and unlisted files, each once, or clean when the files match |
| Manifest.HexRoundTrip | internal/seal/seal.go:121-134 | Hex decoding undoes hex encoding |
| Manifest.HexMeans | internal/seal/seal.go:121-134 | Two lower-case digits a byte, the high one first |
| SealedBundle.ManifestDetectsDifference | internal/seal/seal.go:139-199 | CheckManifest of the manifest of f accepts g exactly when they have the same names and digests but for the two reserved names; so exactly when they agree on them, unless a name has two contents of one digest |
| SealedBundle.Bundle | internal/seal/bundle.go:154-163 | Adds the manifest and its signature to the caller's files; changes nothing without a key |
| SealedBundle.VerifyBundle | internal/seal/bundle.go:167-177 | Unsealed without either entry, and else which of missing key, malformed signature, mismatch, bad contents and sealed it is, each with its exact condition |
| SealedBundle.BundleVerifies | internal/seal/bundle.go:154-177 | VerifyBundle accepts what Bundle made exactly when every name is non-empty, has no newline, does not end in a carriage return and fits one scanner line |
| SealedBundle.TamperingShows | internal/seal/bundle.go:167-177 | A bundle that verifies with another's signature holds the other's files, unless SHA-256 collides on two contents of one name or the HMAC on the two manifests |
| SealedBundle.SignatureDecodes | internal/seal/seal.go:121-134 | A written signature reads back as its digest |
| SealedBundle.DecodeMeans | internal/seal/seal.go:118-134 | A signature decodes to a digest exactly when it is the digest's 32 bytes in hex behind sha256=, with nothing but white space around it |
| BundleArchive.WriteBundle | internal/seal/bundle.go:181-213 | One regular entry per file under the root, in path order |
| BundlePaths.ParentCancels | internal/seal/bundle.go:244-247 | path.Clean as documented: a parent takes back the segment before it, wherever it stands |
| BundlePaths.DotsVanish | internal/seal/bundle.go:244-247 | empty segments and dots vanish |
| BundlePaths.RootStays | internal/seal/bundle.go:244-247 | a parent of the root vanishes |
| BundlePaths.CleanIsIdempotent | internal/seal/bundle.go:244-247 | and nothing is left to clean |
| BundleArchive.ReadBundle | internal/seal/bundle.go:220-270 | Returns the root and files an archive holds, and refuses exactly the archives that hold no bundle |
| BundleArchive.HoldsUnique | internal/seal/bundle.go:215-219 | An archive holds one bundle at most |
| BundleArchive.NothingHides | internal/seal/bundle.go:215-219 | In an archive that is read the root is one clean segment, every path under it is clean, and each regular entry is the only one at its path, with its data in the files |
| BundleArchive.WrittenHolds | internal/seal/bundle.go:179-213 | What is written is a bundle of the files under the root exactly when there is a file, the root is one clean segment, and every name is a clean relative path |
| BundleArchive.WriteThenRead | internal/seal/bundle.go:179-270 | ReadBundle gives back root and files exactly then |

## Left out

- PruningFacts.HealthUnchanged: assumes that norm findings carry no marks, as every generator in the repository makes them; `PruningLimits.MarkedNormHidesStatus` shows the assumption is needed.
- Linkage.ApartAfterMerge: distances are exact reals, so ties and order are not blurred by rounding.
- Jacobi.JacobiEigen: says that every sweep lowers the off-diagonal sum and how far the returned pairs can be from exact, not how many sweeps three or more points need.
- ScoreLedger.ComputeScoreAttribution: the severity of a version skew is a parameter, so version parsing is not modelled, and a nil report's empty ledger is not.
- BundleArchive.WriteBundle: an archive is the list of its entries; time stamps, sizes, names a tar header cannot hold and the cap on decompressed bytes are not modelled.
- PodSecurity.GrantsAdmin: capability names are upper-cased in ASCII only.
- SealedBundle.DecodeSignature: only ASCII white space around a signature is trimmed.
- SetNorms.DetectSetOutliers: reads the lists of a prepared payload; the removal of fields of degraded or unavailable scanners and the skipping of uniform sections come before it and are not modelled.
- WhatIfFix.WhatIf: the consensus fix only, judged by the set detector alone over the clusters of the scope; how the scope is chosen, the median, mode and remove fixes and the rebuilt score are not modelled.
- ScanController.Decide: the status fields that only describe the last scan, and its conditions, are not modelled; neither is the error path of a failed status write beyond starting no scan.
- The 2-D map: axis signs, stress, nearest peers and coordinates.
- String outliers, multi-field trends, uniqueness over time and forecasts' clamping and prediction interval.
- Per-cluster scores, drivers, grades and headlines.
- The generators that make findings from scanner data, and all rendering.
- Tar, gzip, YAML and JSON encodings, TLS, HTTP, informers and the work queue.
- Pinned baselines read from a file.
