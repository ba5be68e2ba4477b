/** The baseline cache of internal/admission/baseline.go: callers that find it stale share one
    recompute, which may fail or outlive them. */
module BaselineCache {
  import opened Wrappers
  import opened Admission

  // ----- The provider's own state

  class StoreBaselineProvider {
    const ttl: int
    var cached: Baseline
    var cachedAt: Option<int>

    constructor (lifetime: int)
      ensures cached == ZERO_BASELINE && cachedAt == None && ttl == if lifetime <= 0 then 60_000_000_000 else lifetime
    {
      ttl := if lifetime <= 0 then 60_000_000_000 else lifetime;
      cached, cachedAt := ZERO_BASELINE, None;
    }

    /** The provider's fields are those of the state s of a run. */
    ghost predicate Shows(s: System)
      reads this
    {
      s.commits != [] && cached == s.commits[|s.commits| - 1] && cachedAt == s.cachedAt
    }

    /** What a caller sees first: the cached baseline, and whether it is fresh. A fresh one ends the call. */
    method Look(now: int, ghost s: System, ghost caller: int) returns (b: Baseline, isFresh: bool)
      requires Shows(s) && Enabled(s, Called(now, caller))
      ensures b == cached && isFresh == IsFresh(cachedAt, ttl, now)
      ensures isFresh == Reads(s, Called(now, caller), ttl).Some?
      ensures isFresh ==> b == s.commits[Reads(s, Called(now, caller), ttl).value]
    {
      b := cached;
      isFresh := cachedAt.Some? && now - cachedAt.value < ttl;
    }

    /** How a recompute ends: a failure keeps the last good baseline, and either way the clock restarts. */
    method Refresh(result: Option<Baseline>, now: int, ghost s: System) returns (served: Baseline)
      requires Shows(s) && Enabled(s, Refreshed(now, result))
      modifies this`cached, this`cachedAt
      ensures cachedAt == Some(now)
      ensures cached == served == if result.Some? then result.value else old(cached)
      ensures Shows(Apply(s, Refreshed(now, result), ttl))
      ensures served == Apply(s, Refreshed(now, result), ttl).commits[
                          Apply(s, Refreshed(now, result), ttl).flight.value.serves.value]
    {
      cachedAt := Some(now);
      if result.None? {
        return cached;
      }
      cached := result.value;
      served := cached;
    }
  }

  predicate IsFresh(cachedAt: Option<int>, ttl: int, now: int) {
    cachedAt.Some? && now - cachedAt.value < ttl
  }

  // ----- Callers, recomputes and their interleavings

  // The mutex makes each look and each refresh one step; at most one recompute is in flight, and it can be
  // joined until its result is delivered.

  /** A call in progress. Versions count committed baselines. A caller that found the cache stale has read version
      snapshot when refreshes refreshes were done, joins a recompute, and is answered with its version. */
  datatype Call =
    | Stale(snapshot: nat, refreshes: nat, at: int)
    | Waiting(snapshot: nat)
    | Answered(snapshot: nat, version: nat)

  /** The recompute in flight, and once it committed or failed, the version it serves. */
  datatype Flight = Flight(serves: Option<nat>)

  datatype System = System(commits: seq<Baseline>, cachedAt: Option<int>, refreshes: nat, flight: Option<Flight>,
                           calls: map<int, Call>, lastRead: map<int, nat>)

  datatype Event =
    | Called(now: int, caller: int)
    | Joined(now: int, caller: int)
    | Refreshed(now: int, result: Option<Baseline>)
    | Delivered(now: int)
    | Returned(now: int, caller: int)
    | Canceled(now: int, caller: int)

  const START := System([ZERO_BASELINE], None, 0, None, map[], map[])

  function Version(s: System): int {
    |s.commits| - 1
  }

  predicate Enabled(s: System, e: Event) {
    s.commits != [] &&
    match e
    case Called(_, c) => c !in s.calls
    case Joined(_, c) => c in s.calls && s.calls[c].Stale?
    case Refreshed(_, _) => s.flight.Some? && s.flight.value.serves.None?
    case Delivered(_) => s.flight.Some? && s.flight.value.serves.Some?
    case Returned(_, c) => c in s.calls && s.calls[c].Answered?
    case Canceled(_, c) => c in s.calls && !s.calls[c].Stale?
  }

  /** The version the event returns to its caller, if it ends a call. */
  function Reads(s: System, e: Event, ttl: int): Option<nat>
    requires Enabled(s, e)
  {
    match e
    case Called(now, c) => if IsFresh(s.cachedAt, ttl, now) then Some(|s.commits| - 1) else None
    case Returned(_, c) => Some(s.calls[c].version)
    case Canceled(_, c) => Some(s.calls[c].snapshot)
    case _ => None
  }

  /** The event starts a recompute. */
  predicate StartsFlight(s: System, e: Event) {
    e.Joined? && s.flight.None?
  }

  /** A delivery answers every caller that waits. */
  ghost function Answer(calls: map<int, Call>, version: nat): map<int, Call> {
    map c | c in calls :: if calls[c].Waiting? then Answered(calls[c].snapshot, version) else calls[c]
  }

  ghost function Apply(s: System, e: Event, ttl: int): System
    requires Enabled(s, e)
  {
    match e
    case Called(now, c) =>
      if IsFresh(s.cachedAt, ttl, now) then s.(lastRead := s.lastRead[c := |s.commits| - 1])
      else s.(calls := s.calls[c := Stale(|s.commits| - 1, s.refreshes, now)])
    case Joined(_, c) =>
      s.(calls := s.calls[c := Waiting(s.calls[c].snapshot)],
         flight := if s.flight.None? then Some(Flight(None)) else s.flight)
    case Refreshed(now, result) =>
      var commits := if result.Some? then s.commits + [result.value] else s.commits;
      s.(commits := commits, cachedAt := Some(now), refreshes := s.refreshes + 1,
         flight := Some(Flight(Some(|commits| - 1))))
    case Delivered(_) => s.(flight := None, calls := Answer(s.calls, s.flight.value.serves.value))
    case Returned(_, c) => s.(calls := s.calls - {c}, lastRead := s.lastRead[c := s.calls[c].version])
    case Canceled(_, c) => s.(calls := s.calls - {c}, lastRead := s.lastRead[c := s.calls[c].snapshot])
  }

  /** A run from an empty cache, as the clock goes on. */
  ghost predicate IsRun(ss: seq<System>, es: seq<Event>, ttl: int) {
    && |ss| == |es| + 1 && ss[0] == START
    && (forall i :: 0 <= i < |es| ==> Enabled(ss[i], es[i]) && ss[i + 1] == Apply(ss[i], es[i], ttl))
    && (forall i, j :: 0 <= i <= j < |es| ==> es[i].now <= es[j].now)
  }

  // ----- What every step keeps

  /** The versions a call holds are committed, its answer no older than what it saw, and what it saw no
      older than what its caller last read. */
  ghost predicate CallSound(s: System, c: int)
    requires c in s.calls
  {
    var call := s.calls[c];
    && call.snapshot <= Version(s)
    && (call.Answered? ==> call.snapshot <= call.version <= Version(s))
    && (c in s.lastRead ==> s.lastRead[c] <= call.snapshot)
  }

  /** A stale look not yet overtaken by a refresh was at least a lifetime after the last one. */
  ghost predicate LookSound(s: System, ttl: int, c: int)
    requires c in s.calls
  {
    var call := s.calls[c];
    call.Stale? ==>
      call.refreshes <= s.refreshes && (call.refreshes == s.refreshes ==> !IsFresh(s.cachedAt, ttl, call.at))
  }

  ghost predicate Sound(s: System, ttl: int) {
    && s.commits != []
    && (s.flight.Some? && s.flight.value.serves.Some? ==> s.flight.value.serves.value == Version(s))
    && (forall c :: c in s.calls ==> CallSound(s, c) && LookSound(s, ttl, c))
    && (forall c :: c in s.lastRead ==> s.lastRead[c] <= Version(s))
  }

  lemma StepKeepsSound(s: System, e: Event, ttl: int)
    requires Sound(s, ttl) && Enabled(s, e)
    ensures Sound(Apply(s, e, ttl), ttl)
    ensures forall c :: c in s.lastRead ==>
              c in Apply(s, e, ttl).lastRead && s.lastRead[c] <= Apply(s, e, ttl).lastRead[c]
    ensures var r := Reads(s, e, ttl);
            r.Some? ==> r.value <= Version(s) && e.caller in Apply(s, e, ttl).lastRead
                        && Apply(s, e, ttl).lastRead[e.caller] == r.value
                        && (e.caller in s.lastRead ==> s.lastRead[e.caller] <= r.value)
    ensures s.commits <= Apply(s, e, ttl).commits
  {
  }

  lemma {:induction false} RunSound(ss: seq<System>, es: seq<Event>, ttl: int, m: nat)
    requires IsRun(ss, es, ttl) && m <= |es|
    ensures Sound(ss[m], ttl)
  {
    if m > 0 {
      RunSound(ss, es, ttl, m - 1);
      StepKeepsSound(ss[m - 1], es[m - 1], ttl);
    }
  }

  // ----- What callers can rely on

  /** A returned version is the zero baseline or one some recompute before committed. */
  lemma {:induction false} CommitsComeFromRecomputes(ss: seq<System>, es: seq<Event>, ttl: int, m: nat, v: nat)
    requires IsRun(ss, es, ttl) && m <= |es| && v < |ss[m].commits|
    ensures v == 0 ==> ss[m].commits[v] == ZERO_BASELINE
    ensures v > 0 ==> exists k :: 0 <= k < m && es[k] == Refreshed(es[k].now, Some(ss[m].commits[v]))
    decreases m
  {
    if m > 0 {
      var s, e := ss[m - 1], es[m - 1];
      if v < |s.commits| {
        CommitsComeFromRecomputes(ss, es, ttl, m - 1, v);
        StepKeepsCommits(s, e, ttl);
      } else {
        assert e.Refreshed? && e.result == Some(ss[m].commits[v]);
      }
    }
  }

  lemma StepKeepsCommits(s: System, e: Event, ttl: int)
    requires Enabled(s, e)
    ensures s.commits <= Apply(s, e, ttl).commits
  {
  }

  /** What a call returns is the zero baseline or a committed one. */
  lemma ReadIsCommitted(ss: seq<System>, es: seq<Event>, ttl: int, i: nat)
    requires IsRun(ss, es, ttl) && i < |es| && Reads(ss[i], es[i], ttl).Some?
    ensures var v := Reads(ss[i], es[i], ttl).value;
            v < |ss[i].commits| &&
            (ss[i].commits[v] == ZERO_BASELINE
             || exists k :: 0 <= k < i && es[k] == Refreshed(es[k].now, Some(ss[i].commits[v])))
  {
    RunSound(ss, es, ttl, i);
    StepKeepsSound(ss[i], es[i], ttl);
    CommitsComeFromRecomputes(ss, es, ttl, i, Reads(ss[i], es[i], ttl).value);
  }

  lemma {:induction false} LastReadGrows(ss: seq<System>, es: seq<Event>, ttl: int, i: nat, j: nat, c: int)
    requires IsRun(ss, es, ttl) && i <= j <= |es| && c in ss[i].lastRead
    ensures c in ss[j].lastRead && ss[i].lastRead[c] <= ss[j].lastRead[c]
    decreases j
  {
    if i < j {
      LastReadGrows(ss, es, ttl, i, j - 1, c);
      RunSound(ss, es, ttl, j - 1);
      StepKeepsSound(ss[j - 1], es[j - 1], ttl);
    }
  }

  /** One caller's reads never go back to an earlier commit. */
  lemma ReadsNeverGoBack(ss: seq<System>, es: seq<Event>, ttl: int, i: nat, j: nat)
    requires IsRun(ss, es, ttl) && i < j < |es|
    requires Reads(ss[i], es[i], ttl).Some? && Reads(ss[j], es[j], ttl).Some? && es[i].caller == es[j].caller
    ensures Reads(ss[i], es[i], ttl).value <= Reads(ss[j], es[j], ttl).value
  {
    var c := es[i].caller;
    RunSound(ss, es, ttl, i);
    StepKeepsSound(ss[i], es[i], ttl);
    LastReadGrows(ss, es, ttl, i + 1, j, c);
    RunSound(ss, es, ttl, j);
    StepKeepsSound(ss[j], es[j], ttl);
  }

  // ----- What each read returns

  /** The event is one of this caller's own. */
  predicate By(e: Event, c: int) {
    match e
    case Called(_, x) => x == c
    case Joined(_, x) => x == c
    case Returned(_, x) => x == c
    case Canceled(_, x) => x == c
    case _ => false
  }

  /** Caller c joined at i, d is the first delivery after that, and by m the caller has done nothing more. */
  ghost predicate Served(es: seq<Event>, i: nat, d: nat, m: nat, c: int) {
    && i < d < m <= |es| && es[i].Joined? && es[i].caller == c && es[d].Delivered?
    && (forall k :: i < k < d ==> !es[k].Delivered?)
    && (forall k :: i < k < m ==> !By(es[k], c))
  }

  /** Where the caller that waits in ss[m] joined; nothing has been delivered since. */
  lemma {:induction false} JoinedAt(ss: seq<System>, es: seq<Event>, ttl: int, m: nat, c: int) returns (i: nat)
    requires IsRun(ss, es, ttl) && m <= |es| && c in ss[m].calls && ss[m].calls[c].Waiting?
    ensures i < m && es[i].Joined? && es[i].caller == c
    ensures forall k :: i < k < m ==> !es[k].Delivered? && !By(es[k], c)
    decreases m
  {
    if es[m - 1].Joined? && es[m - 1].caller == c {
      i := m - 1;
    } else {
      i := JoinedAt(ss, es, ttl, m - 1, c);
    }
  }

  /** Where the caller that is answered in ss[m] joined, and the delivery that answered it. */
  lemma {:induction false} AnsweredAt(ss: seq<System>, es: seq<Event>, ttl: int, m: nat, c: int)
    returns (i: nat, d: nat)
    requires IsRun(ss, es, ttl) && m <= |es| && c in ss[m].calls && ss[m].calls[c].Answered?
    ensures Served(es, i, d, m, c)
    decreases m
  {
    if c in ss[m - 1].calls && ss[m - 1].calls[c].Answered? {
      i, d := AnsweredAt(ss, es, ttl, m - 1, c);
    } else {
      i := JoinedAt(ss, es, ttl, m - 1, c);
      d := m - 1;
    }
  }

  /** Every answer returned was joined and delivered. */
  lemma ReturnedWasServed(ss: seq<System>, es: seq<Event>, ttl: int, j: nat)
    requires IsRun(ss, es, ttl) && j < |es| && es[j].Returned?
    ensures exists i, d :: Served(es, i, d, j, es[j].caller)
  {
    var i, d := AnsweredAt(ss, es, ttl, j, es[j].caller);
  }

  lemma {:induction false} WaitsUntil(ss: seq<System>, es: seq<Event>, ttl: int, i: nat, d: nat, c: int, m: nat)
    requires IsRun(ss, es, ttl) && Served(es, i, d, d + 1, c) && i < m <= d
    ensures c in ss[m].calls && ss[m].calls[c].Waiting? && ss[m].flight.Some?
    decreases m
  {
    if i + 1 < m { WaitsUntil(ss, es, ttl, i, d, c, m - 1); }
  }

  lemma {:induction false} AnsweredUntil(ss: seq<System>, es: seq<Event>, ttl: int, i: nat, d: nat, m: nat, c: int)
    requires IsRun(ss, es, ttl) && Served(es, i, d, m, c)
    ensures c in ss[m].calls && ss[m].calls[c].Answered? && ss[m].calls[c].version == Version(ss[d])
    decreases m
  {
    if d + 1 < m {
      AnsweredUntil(ss, es, ttl, i, d, m - 1, c);
    } else {
      WaitsUntil(ss, es, ttl, i, d, c, d);
      RunSound(ss, es, ttl, d);
    }
  }

  /** Commits are only ever added. */
  lemma {:induction false} CommitsGrow(ss: seq<System>, es: seq<Event>, ttl: int, i: nat, j: nat)
    requires IsRun(ss, es, ttl) && i <= j <= |es|
    ensures ss[i].commits <= ss[j].commits
    decreases j
  {
    if i < j {
      CommitsGrow(ss, es, ttl, i, j - 1);
      StepKeepsCommits(ss[j - 1], es[j - 1], ttl);
    }
  }

  /** A caller that joined can return from the first delivery on, and is returned what was the latest commit then. A
      commit made since it joined is part of that exactly when it came before the delivery. */
  lemma WaiterGetsTheRecompute(ss: seq<System>, es: seq<Event>, ttl: int, i: nat, d: nat, m: nat, c: int, now: int)
    requires IsRun(ss, es, ttl) && Served(es, i, d, m, c)
    ensures Enabled(ss[m], Returned(now, c))
    ensures Reads(ss[m], Returned(now, c), ttl) == Some(|ss[d].commits| - 1)
    ensures forall r :: i < r < m && es[r].Refreshed? && es[r].result.Some? ==>
              (Reads(ss[m], Returned(now, c), ttl).value >= |ss[r + 1].commits| - 1 <==> r < d)
  {
    RunSound(ss, es, ttl, m);
    AnsweredUntil(ss, es, ttl, i, d, m, c);
    forall r | i < r < m && es[r].Refreshed? && es[r].result.Some?
      ensures |ss[d].commits| >= |ss[r + 1].commits| <==> r < d
    {
      if r < d {
        CommitsGrow(ss, es, ttl, r + 1, d);
      } else {
        CommitsGrow(ss, es, ttl, d, r);
      }
    }
  }

  /** Between a refresh of the flight and its delivery, nothing is committed and nothing else refreshed. */
  lemma {:induction false} RefreshedOnce(ss: seq<System>, es: seq<Event>, ttl: int, r: nat, m: nat)
    requires IsRun(ss, es, ttl) && r < m <= |es| && es[r].Refreshed?
    requires forall k :: r < k < m ==> !es[k].Delivered?
    ensures ss[m].commits == ss[r + 1].commits && ss[m].flight == Some(Flight(Some(|ss[r + 1].commits| - 1)))
    decreases m
  {
    if r + 1 < m { RefreshedOnce(ss, es, ttl, r, m - 1); }
  }

  /** When the recompute ends while the caller waits, the caller is returned its baseline, or after a failure the
      last good one. */
  lemma WaiterGetsTheResult(ss: seq<System>, es: seq<Event>, ttl: int, i: nat, r: nat, d: nat, m: nat, c: int, now: int)
    requires IsRun(ss, es, ttl) && Served(es, i, d, m, c) && i < r < d && es[r].Refreshed?
    ensures Enabled(ss[m], Returned(now, c)) && Reads(ss[m], Returned(now, c), ttl).Some?
    ensures var v := Reads(ss[m], Returned(now, c), ttl).value;
            v < |ss[m].commits|
            && ss[m].commits[v] ==
                 if es[r].result.Some? then es[r].result.value else ss[r].commits[|ss[r].commits| - 1]
  {
    WaiterGetsTheRecompute(ss, es, ttl, i, d, m, c, now);
    RefreshedOnce(ss, es, ttl, r, d);
    CommitsGrow(ss, es, ttl, d, m);
    RunSound(ss, es, ttl, r);
  }

  /** Where the caller of an open call looked, and what it saw. */
  lemma {:induction false} LookedAt(ss: seq<System>, es: seq<Event>, ttl: int, m: nat, c: int) returns (i: nat)
    requires IsRun(ss, es, ttl) && m <= |es| && c in ss[m].calls
    ensures i < m && es[i].Called? && es[i].caller == c && (forall k :: i < k < m ==> !(es[k].Called? && By(es[k], c)))
    ensures ss[m].calls[c].snapshot == |ss[i].commits| - 1 && !IsFresh(ss[i].cachedAt, ttl, es[i].now)
    decreases m
  {
    if es[m - 1].Called? && es[m - 1].caller == c {
      i := m - 1;
    } else {
      i := LookedAt(ss, es, ttl, m - 1, c);
    }
  }

  /** A caller that gives up is returned what was the latest commit when it called, which was stale by then. */
  lemma CancelReturnsTheLook(ss: seq<System>, es: seq<Event>, ttl: int, j: nat)
    requires IsRun(ss, es, ttl) && j < |es| && es[j].Canceled?
    ensures exists i :: 0 <= i < j && es[i].Called? && es[i].caller == es[j].caller
                        && (forall k :: i < k < j ==> !(es[k].Called? && By(es[k], es[j].caller)))
                        && !IsFresh(ss[i].cachedAt, ttl, es[i].now)
                        && Reads(ss[j], es[j], ttl) == Some(|ss[i].commits| - 1)
  {
    var i := LookedAt(ss, es, ttl, j, es[j].caller);
  }

  /** The cache is as old as the last refresh, successful or not. */
  lemma {:induction false} CachedAtLastRefresh(ss: seq<System>, es: seq<Event>, ttl: int, m: nat)
    requires IsRun(ss, es, ttl) && m <= |es|
    ensures ss[m].cachedAt.None? <==> forall k :: 0 <= k < m ==> !es[k].Refreshed?
    ensures ss[m].cachedAt.Some? ==>
              exists r :: 0 <= r < m && es[r].Refreshed? && es[r].now == ss[m].cachedAt.value
                          && forall k :: r < k < m ==> !es[k].Refreshed?
  {
    if m > 0 { CachedAtLastRefresh(ss, es, ttl, m - 1); }
  }

  /** A call is answered at once, with the latest commit, exactly when the last refresh is less than a lifetime ago. */
  lemma FreshIsAnsweredAtOnce(ss: seq<System>, es: seq<Event>, ttl: int, j: nat)
    requires IsRun(ss, es, ttl) && j < |es| && es[j].Called?
    ensures Reads(ss[j], es[j], ttl).Some? <==>
            exists r :: 0 <= r < j && es[r].Refreshed? && es[j].now < es[r].now + ttl
    ensures Reads(ss[j], es[j], ttl).Some? ==> Reads(ss[j], es[j], ttl).value == |ss[j].commits| - 1
  {
    CachedAtLastRefresh(ss, es, ttl, j);
    if ss[j].cachedAt.Some? {
      var r :| 0 <= r < j && es[r].Refreshed? && es[r].now == ss[j].cachedAt.value
               && forall k :: r < k < j ==> !es[k].Refreshed?;
      forall k | 0 <= k < j && es[k].Refreshed? ensures es[k].now <= es[r].now {
        assert k <= r;
      }
    }
  }

  // ----- One recompute at a time

  /** While a recompute is neither committed nor failed, it stays in flight. */
  lemma {:induction false} FlightStays(ss: seq<System>, es: seq<Event>, ttl: int, i: nat, j: nat)
    requires IsRun(ss, es, ttl) && i < j <= |es| && StartsFlight(ss[i], es[i])
    requires forall m :: i < m < j ==> !es[m].Refreshed?
    ensures ss[j].flight == Some(Flight(None))
    decreases j
  {
    if i + 1 < j { FlightStays(ss, es, ttl, i, j - 1); }
  }

  /** Recomputes never overlap: between the starts of two, the first has ended. */
  lemma RecomputesNeverOverlap(ss: seq<System>, es: seq<Event>, ttl: int, i: nat, j: nat)
    requires IsRun(ss, es, ttl) && i < j < |es| && StartsFlight(ss[i], es[i]) && StartsFlight(ss[j], es[j])
    ensures exists m :: i < m < j && es[m].Refreshed?
  {
    if forall m :: i < m < j ==> !es[m].Refreshed? {
      FlightStays(ss, es, ttl, i, j);
    }
  }

  // ----- Once per lifetime

  /** A recompute starts within a lifetime of the last refresh only when its caller found the cache stale before
      that refresh. */
  lemma EarlyStartLookedBefore(ss: seq<System>, es: seq<Event>, ttl: int, j: nat)
    requires IsRun(ss, es, ttl) && j < |es| && StartsFlight(ss[j], es[j])
    requires ss[j].cachedAt.Some? && es[j].now < ss[j].cachedAt.value + ttl
    ensures ss[j].calls[es[j].caller].refreshes < ss[j].refreshes
  {
    RunSound(ss, es, ttl, j);
    LookedBy(ss, es, ttl, j, es[j].caller);
  }

  /** Within a lifetime of the last refresh and with no recompute in flight, some caller can start one exactly when
      some caller found the cache stale before that refresh and has not joined yet. */
  lemma EarlyStartExactly(ss: seq<System>, es: seq<Event>, ttl: int, t: int)
    requires IsRun(ss, es, ttl) && es != [] && es[|es| - 1].now <= t && ss[|es|].flight.None?
    requires ss[|es|].cachedAt.Some? && t < ss[|es|].cachedAt.value + ttl
    ensures var s := ss[|es|];
            (exists c :: Enabled(s, Joined(t, c)) && StartsFlight(s, Joined(t, c))) <==>
            (exists c :: c in s.calls && s.calls[c].Stale? && s.calls[c].refreshes < s.refreshes)
  {
    var s := ss[|es|];
    RunSound(ss, es, ttl, |es|);
    forall c | Enabled(s, Joined(t, c))
      ensures s.calls[c].refreshes < s.refreshes
    {
      LookedBy(ss, es, ttl, |es|, c);
    }
    forall c | c in s.calls && s.calls[c].Stale?
      ensures Enabled(s, Joined(t, c)) && StartsFlight(s, Joined(t, c))
    {
    }
  }

  /** A look is no later than the last event. */
  lemma {:induction false} LookedBy(ss: seq<System>, es: seq<Event>, ttl: int, m: nat, c: int)
    requires IsRun(ss, es, ttl) && 0 < m <= |es| && c in ss[m].calls && ss[m].calls[c].Stale?
    ensures ss[m].calls[c].at <= es[m - 1].now
    decreases m
  {
    var s, e := ss[m - 1], es[m - 1];
    if c in s.calls && s.calls[c].Stale? && m > 1 {
      LookedBy(ss, es, ttl, m - 1, c);
    } else {
      assert e == Called(e.now, c);
    }
  }

  /** The comment says the baseline is derived no more than once per lifetime. It is derived twice when a
      caller that found the cache stale joins only after another's recompute was delivered. */
  lemma TwiceWithinLifetime(ttl: int, b: Baseline) returns (ss: seq<System>, es: seq<Event>)
    requires ttl > 10
    ensures IsRun(ss, es, ttl) && |es| == 6
    ensures StartsFlight(ss[2], es[2]) && StartsFlight(ss[5], es[5]) && es[5].now - es[2].now < ttl
    ensures es[3] == Refreshed(3, Some(b)) && es[5].now - 3 < ttl
  {
    es := [Called(0, 1), Called(1, 2), Joined(2, 1), Refreshed(3, Some(b)), Delivered(4), Joined(5, 2)];
    var s0 := START;
    var s1 := Apply(s0, es[0], ttl);
    var s2 := Apply(s1, es[1], ttl);
    var s3 := Apply(s2, es[2], ttl);
    var s4 := Apply(s3, es[3], ttl);
    var s5 := Apply(s4, es[4], ttl);
    ss := [s0, s1, s2, s3, s4, s5, Apply(s5, es[5], ttl)];
  }
}
