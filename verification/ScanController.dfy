/** The ClusterScan controller of internal/controller/controller.go, and runs of its reconciles,
    scans and deletions. Times are nanoseconds. */
module ScanController {
  import opened Arith
  import opened Backoff
  import opened Wrappers

  /** The next scan time written for a key, and the generation it was computed for. */
  datatype Scheduled = Scheduled(generation: int, at: int)

  datatype Phase = NoPhase | Pending | Running | Succeeded | Failed | Paused

  /** The status fields that decide when a scan is due. */
  datatype Status = Status(phase: Phase, message: string, nextScanTime: Option<int>, lastScanTime: Option<int>,
                           consecutiveFailures: int)

  datatype Spec = Invalid(reason: string) | Valid(paused: bool, interval: int)

  /** A ClusterScan as the cache holds it; its status may be stale. */
  datatype Resource = Resource(key: string, generation: int, spec: Spec, status: Status)

  /** What a reconcile does before any scan: nothing more, wait until due, or scan. Each may write status. */
  datatype Decision =
    | Rest(patch: Option<Status>)
    | Wait(due: int, patch: Option<Status>)
    | Scan(patch: Option<Status>)

  // ----- When a scan is due

  /** The due time the status alone gives. */
  function StatusDue(status: Status, interval: int, now: int): int {
    var due :=
      if status.nextScanTime.Some? then status.nextScanTime.value
      else if status.lastScanTime.Some? then status.lastScanTime.value + interval
      else now;
    if status.lastScanTime.Some? && status.consecutiveFailures == 0 && status.lastScanTime.value + interval < due
    then status.lastScanTime.value + interval
    else due
  }

  /** The status lets a scan start at t: its next scan time is past, or a success is a whole interval past; without
      a next scan time the last scan is a whole interval past. */
  ghost predicate StatusAllows(status: Status, interval: int, t: int) {
    var past := status.lastScanTime.Some? ==> status.lastScanTime.value + interval <= t;
    && (status.nextScanTime.Some? ==>
          status.nextScanTime.value <= t
          || (status.lastScanTime.Some? && status.consecutiveFailures == 0 && past))
    && (status.nextScanTime.None? ==> past)
  }

  /** The time remembered for the resource's generation. */
  ghost function Remembered(next: map<string, Scheduled>, obj: Resource): Option<int> {
    if obj.key in next && next[obj.key].generation == obj.generation then Some(next[obj.key].at) else None
  }

  /** Status and memory both let a scan of obj start at t. */
  ghost predicate Allowed(next: map<string, Scheduled>, obj: Resource, interval: int, t: int) {
    StatusAllows(obj.status, interval, t) && (Remembered(next, obj).Some? ==> Remembered(next, obj).value <= t)
  }

  /** The due time, and whether it is one remembered that the status does not show yet. */
  function Due(next: map<string, Scheduled>, obj: Resource, interval: int, now: int): (int, bool) {
    var due := StatusDue(obj.status, interval, now);
    if obj.key in next && next[obj.key].generation == obj.generation && next[obj.key].at > due
    then (next[obj.key].at, true)
    else (due, false)
  }

  function InvalidMessage(reason: string): string {
    "invalid spec: " + reason
  }

  /** The status a waiting reconcile writes, unless the cache is behind or shows the time already. */
  function WaitingPatch(status: Status, due: int, behind: bool): Option<Status> {
    if behind || status.nextScanTime == Some(due) then None
    else Some(status.(nextScanTime := Some(due), phase := if status.phase == NoPhase then Pending else status.phase))
  }

  /** A spec a reconcile scans under. */
  predicate Scannable(spec: Spec) {
    spec.Valid? && !spec.paused
  }

  /** What a reconcile of obj decides. */
  function Decide(next: map<string, Scheduled>, obj: Resource, now: int): Decision {
    match obj.spec
    case Invalid(reason) =>
      if obj.status.phase == Failed && obj.status.message == InvalidMessage(reason) then Rest(None)
      else Rest(Some(obj.status.(phase := Failed, message := InvalidMessage(reason))))
    case Valid(paused, interval) =>
      if paused then
        Rest(if obj.status.phase == Paused then None
             else Some(obj.status.(phase := Paused, message := "paused by spec.paused")))
      else
        var (due, behind) := Due(next, obj, interval, now);
        if now < due then Wait(due, WaitingPatch(obj.status, due, behind))
        else Scan(Some(obj.status.(phase := Running, message := "scan triggered by controller")))
  }

  /** How long after a scan the next one is due. */
  ghost function WaitAfter(failed: bool, failures: int, interval: int): int {
    if failed then DelayFrom(0, failures + 1, interval) else interval
  }

  // ----- Runs of one controller process

  /** Where a reconcile stands: it has read the resource, decided to scan it, put the scan in flight, or taken
      its outcome. */
  datatype Stage = Read | Chosen | InFlight | Recording

  datatype Frame = Frame(obj: Resource, stage: Stage)

  /** The controller's maps and the reconciles under way, at most one per key. */
  datatype System = System(next: map<string, Scheduled>, inflight: map<string, bool>, frames: map<string, Frame>)

  datatype Event =
    | Picked(now: int, obj: Resource)
    | Decided(now: int, key: string, patched: bool)
    | Registered(now: int, key: string)
    | ScanReturned(now: int, key: string, stopping: bool)
    | ScanRecorded(now: int, key: string, failed: bool)
    | Deleted(now: int, key: string)

  const START := System(map[], map[], map[])

  predicate At(s: System, key: string, stage: Stage) {
    key in s.frames && s.frames[key].stage == stage
  }

  /** The queue hands a key to one worker at a time, which takes its steps in order. */
  predicate Enabled(s: System, e: Event) {
    match e
    case Picked(_, obj) => obj.key !in s.frames
    case Decided(_, key, _) => At(s, key, Read)
    case Registered(_, key) => At(s, key, Chosen)
    case ScanReturned(_, key, _) => At(s, key, InFlight) && key in s.inflight
    case ScanRecorded(_, key, _) => At(s, key, Recording) && s.frames[key].obj.spec.Valid?
    case Deleted(_, _) => true
  }

  /** The reconcile decides to scan, and its status write succeeds. */
  predicate Chooses(s: System, e: Event)
    requires Enabled(s, e)
  {
    e.Decided? && e.patched && Decide(s.next, s.frames[e.key].obj, e.now).Scan?
  }

  ghost function Step(s: System, key: string, stage: Stage): map<string, Frame>
    requires key in s.frames
  {
    s.frames[key := s.frames[key].(stage := stage)]
  }

  ghost function Apply(s: System, e: Event): System
    requires Enabled(s, e)
  {
    match e
    case Picked(_, obj) => s.(frames := s.frames[obj.key := Frame(obj, Read)])
    case Decided(_, key, _) => s.(frames := if Chooses(s, e) then Step(s, key, Chosen) else s.frames - {key})
    case Registered(_, key) => s.(inflight := s.inflight[key := false], frames := Step(s, key, InFlight))
    case ScanReturned(_, key, stopping) =>
      s.(inflight := s.inflight - {key},
         frames := if s.inflight[key] || stopping then s.frames - {key} else Step(s, key, Recording))
    case ScanRecorded(now, key, failed) =>
      s.(next := s.next[key := NextAfter(s.frames[key].obj, now, failed)], frames := s.frames - {key})
    case Deleted(_, key) =>
      s.(next := s.next - {key}, inflight := if key in s.inflight then s.inflight[key := true] else s.inflight)
  }

  /** What a recorded scan makes the controller remember. */
  ghost function NextAfter(obj: Resource, now: int, failed: bool): Scheduled
    requires obj.spec.Valid?
  {
    Scheduled(obj.generation, now + WaitAfter(failed, obj.status.consecutiveFailures, obj.spec.interval))
  }

  /** A run: the states between its events, from an empty controller, as the clock goes on. */
  ghost predicate IsRun(ss: seq<System>, es: seq<Event>) {
    && |ss| == |es| + 1 && ss[0] == START
    && (forall i :: 0 <= i < |es| ==> Enabled(ss[i], es[i]) && ss[i + 1] == Apply(ss[i], es[i]))
    && (forall i, j :: 0 <= i <= j < |es| ==> es[i].now <= es[j].now)
  }

  // ----- The controller's own state

  class Controller {
    var next: map<string, Scheduled>
    var inflight: map<string, bool>

    constructor ()
      ensures Shows(START)
    {
      next, inflight := map[], map[];
    }

    /** The controller's maps are those of the state s of a run. */
    ghost predicate Shows(s: System)
      reads this
    {
      next == s.next && inflight == s.inflight
    }

    /** The first moment from now on at which status and memory both let a scan start, and whether it is the
        memory alone that holds it back. */
    method DueTime(obj: Resource, interval: int, now: int) returns (due: int, cacheBehind: bool)
      ensures forall t :: t >= now ==> (due <= t <==> Allowed(next, obj, interval, t))
      ensures cacheBehind ==> Remembered(next, obj) == Some(due)
      ensures !cacheBehind && Remembered(next, obj).Some? ==> Remembered(next, obj).value <= due
      ensures cacheBehind && now < due ==> StatusAllows(obj.status, interval, due - 1)
      ensures (due, cacheBehind) == Due(next, obj, interval, now)
    {
      var status := obj.status;
      due := now;
      if status.nextScanTime.Some? {
        due := status.nextScanTime.value;
      } else if status.lastScanTime.Some? {
        due := status.lastScanTime.value + interval;
      }
      if status.lastScanTime.Some? && status.consecutiveFailures == 0 {
        var byInterval := status.lastScanTime.value + interval;
        if byInterval < due {
          due := byInterval;
        }
      }
      if obj.key in next && next[obj.key].generation == obj.generation && next[obj.key].at > due {
        return next[obj.key].at, true;
      }
      return due, false;
    }

    method Remember(key: string, generation: int, at: int)
      modifies this`next
      ensures next == old(next)[key := Scheduled(generation, at)]
    {
      next := next[key := Scheduled(generation, at)];
    }

    /** A deletion, as the step of the state machine. */
    method Forget(now: int, key: string, ghost s: System)
      requires Shows(s)
      modifies this`next, this`inflight
      ensures Shows(Apply(s, Deleted(now, key)))
    {
      next := next - {key};
      if key in inflight {
        inflight := inflight[key := true];
      }
    }

    /** The part of reconcile before a scan. It scans exactly when the spec is valid and not paused and both status
        and memory allow it; a write never hides when the last scan was or how often scans failed, and while only
        the memory holds a scan back nothing is written. */
    method BeginReconcile(obj: Resource, now: int, patched: bool, ghost s: System) returns (d: Decision)
      requires Shows(s) && At(s, obj.key, Read) && s.frames[obj.key].obj == obj
      ensures d.Scan? <==> Scannable(obj.spec) && Allowed(next, obj, obj.spec.interval, now)
      ensures d.Wait? ==> Scannable(obj.spec) && now < d.due && Allowed(next, obj, obj.spec.interval, d.due)
      ensures d.Wait? ==> forall t :: now <= t < d.due ==> !Allowed(next, obj, obj.spec.interval, t)
      ensures d.Wait? && StatusAllows(obj.status, obj.spec.interval, now) ==> d.patch == None
      ensures d.Wait? && d.patch == None ==> Some(d.due) in {obj.status.nextScanTime, Remembered(next, obj)}
      ensures d.patch.Some? ==> d.patch.value.lastScanTime == obj.status.lastScanTime
                                && d.patch.value.consecutiveFailures == obj.status.consecutiveFailures
                                && d.patch.value.nextScanTime ==
                                   if d.Wait? then Some(d.due) else obj.status.nextScanTime
      ensures d.Scan? ==> d.patch.Some? && d.patch.value.phase == Running
      ensures d.Rest? && d.patch.Some? ==> d.patch.value.phase == if obj.spec.Invalid? then Failed else Paused
      ensures d.Wait? && d.patch.Some? ==>
                d.patch.value.phase == if obj.status.phase == NoPhase then Pending else obj.status.phase
      ensures d == Decide(next, obj, now)
      ensures At(Apply(s, Decided(now, obj.key, patched)), obj.key, Chosen) <==> d.Scan? && patched
      ensures Shows(Apply(s, Decided(now, obj.key, patched)))
    {
      match obj.spec
      case Invalid(reason) =>
        var message := InvalidMessage(reason);
        if obj.status.phase == Failed && obj.status.message == message {
          return Rest(None);
        }
        return Rest(Some(obj.status.(phase := Failed, message := message)));
      case Valid(paused, interval) =>
        if paused {
          if obj.status.phase == Paused {
            return Rest(None);
          }
          return Rest(Some(obj.status.(phase := Paused, message := "paused by spec.paused")));
        }
        var due, cacheBehind := DueTime(obj, interval, now);
        if now < due {
          var patch := None;
          if !cacheBehind && obj.status.nextScanTime != Some(due) {
            var status := obj.status.(nextScanTime := Some(due));
            if status.phase == NoPhase {
              status := status.(phase := Pending);
            }
            patch := Some(status);
          }
          return Wait(due, patch);
        }
        return Scan(Some(obj.status.(phase := Running, message := "scan triggered by controller")));
    }

    /** A scan goes in flight, as the step of the state machine. */
    method StartScan(now: int, key: string, ghost s: System)
      requires Shows(s) && Enabled(s, Registered(now, key))
      modifies this`inflight
      ensures Shows(Apply(s, Registered(now, key)))
    {
      inflight := inflight[key := false];
    }

    /** A scan returns, as the step of the state machine: its outcome counts unless the reconcile ends here. */
    method EndScan(now: int, key: string, stopping: bool, ghost s: System) returns (aborted: bool)
      requires Shows(s) && Enabled(s, ScanReturned(now, key, stopping))
      modifies this`inflight
      ensures Shows(Apply(s, ScanReturned(now, key, stopping)))
      ensures aborted <==> key !in Apply(s, ScanReturned(now, key, stopping)).frames
    {
      aborted := inflight[key] || stopping;
      inflight := inflight - {key};
    }

    /** A failure is recorded, as the step of the state machine; the status shows the time remembered. */
    method RecordFailure(obj: Resource, interval: int, completedAt: int, reason: string, ghost s: System)
      returns (status: Status)
      requires Shows(s) && At(s, obj.key, Recording) && s.frames[obj.key].obj == obj
      requires obj.spec.Valid? && interval == obj.spec.interval && Int64(interval)
      modifies this`next
      ensures Shows(Apply(s, ScanRecorded(completedAt, obj.key, true)))
      ensures Remembered(next, obj).Some? && status.nextScanTime == Remembered(next, obj)
      ensures status.consecutiveFailures == obj.status.consecutiveFailures + 1
      ensures status.phase == Failed && status.lastScanTime == obj.status.lastScanTime
    {
      status := obj.status.(consecutiveFailures := obj.status.consecutiveFailures + 1);
      var delay := RetryDelay(status.consecutiveFailures, interval);
      var at := completedAt + delay;
      Remember(obj.key, obj.generation, at);
      status := status.(phase := Failed, message := "scan failed: " + reason, nextScanTime := Some(at));
    }

    /** A success is recorded, as the step of the state machine; the status shows the time remembered. */
    method RecordSuccess(obj: Resource, interval: int, completedAt: int, message: string, ghost s: System)
      returns (status: Status)
      requires Shows(s) && At(s, obj.key, Recording) && s.frames[obj.key].obj == obj
      requires obj.spec.Valid? && interval == obj.spec.interval
      modifies this`next
      ensures Shows(Apply(s, ScanRecorded(completedAt, obj.key, false)))
      ensures Remembered(next, obj).Some?
      ensures status == Status(Succeeded, message, Remembered(next, obj), Some(completedAt), 0)
    {
      var at := completedAt + interval;
      Remember(obj.key, obj.generation, at);
      status := obj.status.(phase := Succeeded, message := message, lastScanTime := Some(completedAt),
                            nextScanTime := Some(at), consecutiveFailures := 0);
    }
  }

  // ----- No scan starts early

  /** Between events i and j the resource keeps its generation and is not deleted. */
  ghost predicate Undisturbed(es: seq<Event>, i: nat, j: nat, key: string, generation: int)
    requires i <= j < |es|
  {
    forall m :: i < m <= j ==> !Disturbs(es[m], key, generation)
  }

  predicate Disturbs(e: Event, key: string, generation: int) {
    e == Deleted(e.now, key) || (e.Picked? && e.obj.key == key && e.obj.generation != generation)
  }

  /** The key is not due before the time given: that time is past, or it is remembered and no reconcile of the
      key has decided yet. */
  ghost predicate HeldUntil(s: System, clock: int, key: string, generation: int, time: int) {
    || clock >= time
    || (&& key in s.next && s.next[key].generation == generation && s.next[key].at >= time
        && (key in s.frames ==>
              At(s, key, Read) && s.frames[key].obj.generation == generation && s.frames[key].obj.key == key))
  }

  lemma OneEventHolds(s: System, e: Event, clock: int, key: string, generation: int, time: int)
    requires Enabled(s, e) && clock <= e.now && HeldUntil(s, clock, key, generation, time)
    requires !Disturbs(e, key, generation)
    ensures HeldUntil(Apply(s, e), e.now, key, generation, time)
    ensures e.Registered? && e.key == key ==> e.now >= time
  {
    hide WaitAfter, StatusDue;
  }

  lemma {:induction false} HeldThrough(ss: seq<System>, es: seq<Event>, i: nat, m: nat, key: string)
    requires IsRun(ss, es) && i < m < |es| && es[i].ScanRecorded? && es[i].key == key
    requires Undisturbed(es, i, m, key, ss[i].frames[key].obj.generation)
    ensures var obj := ss[i].frames[key].obj;
            HeldUntil(ss[m], es[m - 1].now, key, obj.generation, NextAfter(obj, es[i].now, es[i].failed).at)
    decreases m
  {
    hide WaitAfter, Chooses;
    var obj := ss[i].frames[key].obj;
    if m > i + 1 {
      var time := NextAfter(obj, es[i].now, es[i].failed).at;
      HeldThrough(ss, es, i, m - 1, key);
      OneEventHolds(ss[m - 1], es[m - 1], es[m - 2].now, key, obj.generation, time);
    }
  }

  /** While a resource keeps its generation and is not deleted, no scan of it starts before the wait after
      the last recorded one is over, whatever status the reconciles read. */
  lemma NoEarlyScan(ss: seq<System>, es: seq<Event>, i: nat, j: nat, key: string)
    requires IsRun(ss, es) && i < j < |es| && es[i].ScanRecorded? && es[i].key == key
    requires es[j] == Registered(es[j].now, key)
    requires Undisturbed(es, i, j, key, ss[i].frames[key].obj.generation)
    ensures var obj := ss[i].frames[key].obj;
            es[j].now >= es[i].now + WaitAfter(es[i].failed, obj.status.consecutiveFailures, obj.spec.interval)
  {
    hide WaitAfter, Chooses;
    var obj := ss[i].frames[key].obj;
    HeldThrough(ss, es, i, j, key);
    OneEventHolds(ss[j], es[j], es[j - 1].now, key, obj.generation, NextAfter(obj, es[i].now, es[i].failed).at);
  }

  /** ... and the wait is the interval, or after the f-th failure a minute doubled f - 1 times up to it, whenever
      the doubling does not wrap. */
  lemma NoScanWithinBackoff(ss: seq<System>, es: seq<Event>, i: nat, j: nat, key: string)
    requires IsRun(ss, es) && i < j < |es| && es[i].ScanRecorded? && es[i].key == key
    requires es[j] == Registered(es[j].now, key)
    requires Undisturbed(es, i, j, key, ss[i].frames[key].obj.generation)
    requires var obj := ss[i].frames[key].obj;
             Int64(obj.spec.interval)
             && (es[i].failed ==> NoWrap(obj.status.consecutiveFailures + 1, obj.spec.interval))
    ensures var obj := ss[i].frames[key].obj;
            es[j].now >= es[i].now + if es[i].failed
                                     then Promised(obj.status.consecutiveFailures + 1, obj.spec.interval)
                                     else obj.spec.interval
  {
    hide DelayFrom, Promised, NoWrap, Chooses;
    var obj := ss[i].frames[key].obj;
    NoEarlyScan(ss, es, i, j, key);
    RetryDelayExact(obj.status.consecutiveFailures + 1, obj.spec.interval);
  }

  // ----- Deletions

  /** What holds of the frames in every state of a run. */
  ghost predicate FramesSound(s: System) {
    forall k :: k in s.frames ==>
      && s.frames[k].obj.key == k
      && (s.frames[k].stage != Read ==> Scannable(s.frames[k].obj.spec))
      && (s.frames[k].stage == InFlight ==> k in s.inflight)
  }

  lemma {:induction false} RunFramesSound(ss: seq<System>, es: seq<Event>, m: nat)
    requires IsRun(ss, es) && m <= |es|
    ensures FramesSound(ss[m])
  {
    if m > 0 {
      hide WaitAfter, Due, WaitingPatch;
      RunFramesSound(ss, es, m - 1);
    }
  }

  /** A reconcile of the key is under way that a deletion does not stop: it has read a scannable resource and not put
      its scan in flight yet, or it has taken the outcome. */
  ghost predicate Exposed(s: System, key: string) {
    key in s.frames && s.frames[key].stage != InFlight && Scannable(s.frames[key].obj.spec)
  }

  /** Nothing is remembered for the key, and no reconcile under way will have anything remembered. */
  ghost predicate Dropped(s: System, key: string) {
    key !in s.next && !Exposed(s, key) && (At(s, key, InFlight) ==> key in s.inflight && s.inflight[key])
  }

  lemma DroppedStays(s: System, e: Event, key: string)
    requires FramesSound(s) && Enabled(s, e) && Dropped(s, key) && !Picks(e, key)
    ensures Dropped(Apply(s, e), key)
  {
    hide WaitAfter, Due, WaitingPatch;
  }

  predicate Picks(e: Event, key: string) {
    e.Picked? && e.obj.key == key
  }

  /** The run goes on without the resource being read again, to a state in which it is scheduled. */
  ghost predicate GoesOn(ss: seq<System>, es: seq<Event>, ss': seq<System>, es': seq<Event>, key: string) {
    && IsRun(ss', es') && es <= es' && ss <= ss'
    && (forall m :: |es| <= m < |es'| ==> !Picks(es'[m], key))
    && key in ss'[|es'|].next
  }

  lemma {:induction false} StaysDropped(ss: seq<System>, es: seq<Event>, d: nat, j: nat, key: string)
    requires IsRun(ss, es) && d <= j <= |es| && Dropped(ss[d], key)
    requires forall m :: d <= m < j ==> !Picks(es[m], key)
    ensures Dropped(ss[j], key)
    decreases j
  {
    if d < j {
      hide WaitAfter, Chooses, Dropped;
      StaysDropped(ss, es, d, j - 1, key);
      RunFramesSound(ss, es, j - 1);
      DroppedStays(ss[j - 1], es[j - 1], key);
    }
  }

  lemma OneMoreEvent(ss: seq<System>, es: seq<Event>, e: Event)
    requires IsRun(ss, es) && Enabled(ss[|es|], e) && (es != [] ==> es[|es| - 1].now <= e.now)
    ensures IsRun(ss + [Apply(ss[|es|], e)], es + [e])
  {
    hide Apply, Enabled;
  }

  /** A reconcile under way that nothing has stopped yet. */
  ghost predicate Alive(s: System, key: string) {
    && key in s.frames && Scannable(s.frames[key].obj.spec)
    && (At(s, key, InFlight) ==> key in s.inflight && !s.inflight[key])
  }

  /** The event with which it goes on: at its due time it decides to scan, and the scan returns and is recorded. */
  ghost function GoingOn(s: System, clock: int, key: string): Event
    requires Alive(s, key)
  {
    var obj := s.frames[key].obj;
    match s.frames[key].stage
    case Read => Decided(Max(clock, StatusDue(obj.status, obj.spec.interval, clock)), key, true)
    case Chosen => Registered(clock, key)
    case InFlight => ScanReturned(clock, key, false)
    case Recording => ScanRecorded(clock, key, false)
  }

  ghost function StepsLeft(s: System, key: string): nat
    requires key in s.frames
  {
    match s.frames[key].stage
    case Read => 4
    case Chosen => 3
    case InFlight => 2
    case Recording => 1
  }

  lemma OneStepOn(s: System, clock: int, key: string)
    requires FramesSound(s) && Alive(s, key) && key !in s.next
    ensures key in s.frames
    ensures var e := GoingOn(s, clock, key);
            && Enabled(s, e) && e.now >= clock && !Picks(e, key)
            && if StepsLeft(s, key) == 1 then key in Apply(s, e).next
               else Alive(Apply(s, e), key) && key !in Apply(s, e).next
                    && StepsLeft(Apply(s, e), key) == StepsLeft(s, key) - 1
  {
    hide WaitAfter;
  }

  /** A reconcile that is alive can run to its end, and the schedule is back. */
  lemma {:induction false} ScheduleComesBack(ss: seq<System>, es: seq<Event>, key: string)
    returns (ss': seq<System>, es': seq<Event>)
    requires IsRun(ss, es) && es != [] && Alive(ss[|es|], key) && key !in ss[|es|].next
    ensures GoesOn(ss, es, ss', es', key)
    decreases StepsLeft(ss[|es|], key)
  {
    hide Apply, Enabled, GoingOn, Alive, StepsLeft, FramesSound, Picks;
    var s := ss[|es|];
    RunFramesSound(ss, es, |es|);
    OneStepOn(s, es[|es| - 1].now, key);
    var e := GoingOn(s, es[|es| - 1].now, key);
    OneMoreEvent(ss, es, e);
    ss', es' := ss + [Apply(s, e)], es + [e];
    if StepsLeft(s, key) > 1 {
      var longer, events := ScheduleComesBack(ss', es', key);
      assert events[|es|] == es'[|es|] == e;
      ss', es' := longer, events;
    }
  }

  /** A deletion drops the remembered schedule for good, until the resource is read again, exactly when it does not
      meet a reconcile that is about to put its scan in flight or has taken the outcome. */
  lemma DeletionDropsSchedule(ss: seq<System>, es: seq<Event>, key: string)
    requires IsRun(ss, es) && es != [] && es[|es| - 1] == Deleted(es[|es| - 1].now, key)
    ensures Exposed(ss[|es|], key) <==> exists ss', es' :: GoesOn(ss, es, ss', es', key)
  {
    var d := |es| - 1;
    var s := ss[d + 1];
    RunFramesSound(ss, es, d);
    assert key !in s.next && (At(s, key, InFlight) ==> key in s.inflight && s.inflight[key]) by {
      hide WaitAfter, Chooses;
    }
    if Exposed(s, key) {
      var ss', es' := ScheduleComesBack(ss, es, key);
    } else {
      forall ss', es' | GoesOn(ss, es, ss', es', key) ensures false {
        hide Apply, Enabled;
        StaysDropped(ss', es', |es|, |es'|, key);
      }
    }
  }

  /** Until the resource is read or deleted again it is scheduled exactly when a scan of it has been recorded
      since, and then by a reconcile the deletion did not stop. */
  lemma {:induction false} ScheduledWhenRecorded(ss: seq<System>, es: seq<Event>, d: nat, j: nat, key: string)
    requires IsRun(ss, es) && d < j <= |es| && es[d] == Deleted(es[d].now, key)
    requires forall m :: d < m < j ==> !Picks(es[m], key) && es[m] != Deleted(es[m].now, key)
    ensures key in ss[j].next <==> exists m :: d < m < j && es[m].ScanRecorded? && es[m].key == key
    ensures key in ss[j].next ==> Exposed(ss[d + 1], key)
    decreases j
  {
    hide WaitAfter, Chooses;
    if d + 1 < j {
      ScheduledWhenRecorded(ss, es, d, j - 1, key);
    }
    if !Exposed(ss[d + 1], key) {
      RunFramesSound(ss, es, d);
      StaysDropped(ss, es, d + 1, j, key);
    }
  }

  /** The deletion takes its schedule under the mutex and cancels after it. A scan that returns in between was not
      canceled, and the state is that of a deletion after the return. */
  lemma LateCancelIsLateDeletion(s: System, now: int, key: string)
    requires Enabled(s, ScanReturned(now, key, false)) && !s.inflight[key]
    ensures Apply(s.(next := s.next - {key}), ScanReturned(now, key, false)) ==
            Apply(Apply(s, ScanReturned(now, key, false)), Deleted(now, key))
  {
  }

  /** A deletion can meet a reconcile at every stage. */
  lemma DeletionMeets(key: string, stage: Stage) returns (ss: seq<System>, es: seq<Event>)
    ensures IsRun(ss, es) && es != [] && es[|es| - 1] == Deleted(es[|es| - 1].now, key)
    ensures At(ss[|es|], key, stage) && Scannable(ss[|es|].frames[key].obj.spec)
  {
    var obj := Resource(key, 1, Valid(false, 60), Status(NoPhase, "", None, None, 0));
    var steps := [Picked(0, obj), Decided(0, key, true), Registered(0, key), ScanReturned(0, key, false)];
    var n := match stage case Read => 1 case Chosen => 2 case InFlight => 3 case Recording => 4;
    ss, es := [START], [];
    for k := 0 to n
      invariant IsRun(ss, es) && es == steps[..k] && |es| == k
      invariant key !in ss[k].next
      invariant k == 0 ==> ss[k] == START
      invariant k > 0 ==> key in ss[k].frames && ss[k].frames[key].obj == obj
      invariant k == 1 ==> At(ss[k], key, Read)
      invariant k == 2 ==> At(ss[k], key, Chosen)
      invariant k == 3 ==> At(ss[k], key, InFlight) && key in ss[k].inflight && !ss[k].inflight[key]
      invariant k == 4 ==> At(ss[k], key, Recording)
    {
      OneMoreEvent(ss, es, steps[k]);
      ss, es := ss + [Apply(ss[k], steps[k])], es + [steps[k]];
    }
    OneMoreEvent(ss, es, Deleted(0, key));
    ss, es := ss + [Apply(ss[n], Deleted(0, key))], es + [Deleted(0, key)];
  }
}
