/** The `camera_offline` health watchdog: boot tracking, two graces, one latch per camera,
    run tick by tick against a database whose reads and writes may fail. */
module Watchdog {
  import opened Options

  type CameraId = nat
  type Millis = int

  const DEFAULT_CAMERA_OFFLINE_SECS := 120

  // ---- what a tick finds ------------------------------------------------------

  datatype Fetch<T> = Failed | Fetched(value: T)

  /** A row of the heartbeat table, which may carry no process id. */
  type Heartbeat = Fetch<Option<Option<int>>>

  datatype Rule = Rule(enabled: bool, thresholdSecs: Option<int>)

  /** An enabled camera: its recording mode, the seconds since it was created, the ages of
      its last segment and of its motion-cache row, and whether writing an event for it
      would succeed in this tick. */
  datatype CameraRow = CameraRow(
    id: CameraId, motionMode: bool, secsSinceCreated: int,
    segmentAge: Fetch<Option<int>>, cacheAge: Fetch<Option<int>>, writeWorks: bool)

  datatype Tick = Tick(
    now: Millis, heartbeat: Heartbeat, rule: Fetch<Option<Rule>>,
    cameras: Fetch<seq<CameraRow>>, shadowMode: Fetch<Option<bool>>)

  // ---- decisions --------------------------------------------------------------

  predicate WithinBootGrace(secsSinceBoot: int, graceSecs: int) {
    secsSinceBoot < graceSecs
  }

  predicate OfflineFromAge(age: Option<int>, thresholdSecs: int) {
    age.None? || age.value > thresholdSecs
  }

  predicate WithinCreateGrace(age: Option<int>, secsSinceCreated: int, graceSecs: int) {
    age.None? && secsSinceCreated < graceSecs
  }

  function CreateGraceSecs(thresholdSecs: int, bootGraceSecs: int): int {
    if thresholdSecs > bootGraceSecs then thresholdSecs else bootGraceSecs
  }

  function Threshold(r: Rule): int {
    if r.thresholdSecs.Some? then r.thresholdSecs.value else DEFAULT_CAMERA_OFFLINE_SECS
  }

  /** An idle motion camera writes no segments; its cache heartbeat is the sign of life. */
  function Age(t: Tick, cam: CameraRow): Fetch<Option<int>> {
    var shadow := t.shadowMode.Fetched? && t.shadowMode.value == Some(true);
    if cam.motionMode && !shadow then cam.cacheAge else cam.segmentAge
  }

  // ---- one tick, as latches and events ----------------------------------------

  datatype State = State(latched: set<CameraId>, bootAt: Millis, lastPid: Option<int>)

  function Pid(t: Tick): Option<int> {
    if t.heartbeat.Fetched? && t.heartbeat.value.Some? then t.heartbeat.value.value else None
  }

  /** The heartbeat shows a recorder process other than the last one seen. */
  predicate Restarted(s: State, t: Tick) {
    Pid(t).Some? && s.lastPid.Some? && s.lastPid != Pid(t)
  }

  function TrackBoot(s: State, t: Tick): State {
    s.(bootAt := if Restarted(s, t) then t.now else s.bootAt,
       lastPid := if Pid(t).Some? then Pid(t) else s.lastPid)
  }

  /** The check reaches the cameras: the rule was read and is on, the cameras were listed. */
  predicate Checks(t: Tick) {
    t.rule.Fetched? && t.rule.value.Some? && t.rule.value.value.enabled && t.cameras.Fetched?
  }

  predicate RuleIsOff(t: Tick) {
    t.rule.Fetched? && t.rule.value.Some? && !t.rule.value.value.enabled
  }

  predicate Offline(t: Tick, cam: CameraRow)
    requires Checks(t)
  {
    Age(t, cam).Fetched? && OfflineFromAge(Age(t, cam).value, Threshold(t.rule.value.value))
  }

  predicate Online(t: Tick, cam: CameraRow)
    requires Checks(t)
  {
    Age(t, cam).Fetched? && !OfflineFromAge(Age(t, cam).value, Threshold(t.rule.value.value))
  }

  function SecsSinceBoot(s: State, t: Tick): int {
    (t.now - s.bootAt) / 1000
  }

  /** A new offline transition of this camera would be held back. */
  predicate Graced(graceSecs: nat, s: State, t: Tick, cam: CameraRow)
    requires Checks(t) && Age(t, cam).Fetched?
  {
    || WithinBootGrace(SecsSinceBoot(s, t), graceSecs)
    || WithinCreateGrace(Age(t, cam).value, cam.secsSinceCreated, CreateGraceSecs(Threshold(t.rule.value.value), graceSecs))
  }

  /** An event is written for the camera in this tick; `s` is the state after boot tracking. */
  predicate Fires(graceSecs: nat, s: State, t: Tick, cam: CameraRow)
    requires Checks(t)
  {
    Offline(t, cam) && cam.id !in s.latched && !Graced(graceSecs, s, t, cam) && cam.writeWorks
  }

  predicate StaysLatched(graceSecs: nat, s: State, t: Tick, cam: CameraRow)
    requires Checks(t)
  {
    Fires(graceSecs, s, t, cam) || (cam.id in s.latched && !Online(t, cam))
  }

  function Events(graceSecs: nat, s: State, t: Tick): set<CameraId> {
    if !Checks(t) then {}
    else set k | 0 <= k < |t.cameras.value| && Fires(graceSecs, s, t, t.cameras.value[k]) :: t.cameras.value[k].id
  }

  function Latches(graceSecs: nat, s: State, t: Tick): set<CameraId> {
    if RuleIsOff(t) then {}
    else if !Checks(t) then s.latched
    else set k | 0 <= k < |t.cameras.value| && StaysLatched(graceSecs, s, t, t.cameras.value[k]) :: t.cameras.value[k].id
  }

  function Next(graceSecs: nat, s: State, t: Tick): State {
    var tracked := TrackBoot(s, t); tracked.(latched := Latches(graceSecs, tracked, t))
  }

  /** The primary key of the cameras table. */
  predicate DistinctIds(cameras: seq<CameraRow>) {
    forall i, j :: 0 <= i < j < |cameras| ==> cameras[i].id != cameras[j].id
  }

  predicate WellFormed(t: Tick) {
    t.cameras.Fetched? ==> DistinctIds(t.cameras.value)
  }

  // ---- the loop ---------------------------------------------------------------

  class Watchdog {
    const bootGraceSecs: nat
    var wasOffline: map<CameraId, bool>
    var bootAt: Millis
    var lastPid: Option<int>

    ghost function Current(): State
      reads this
    {
      State(Latched(wasOffline), bootAt, lastPid)
    }

    constructor (graceSecs: nat, now: Millis)
      ensures Current() == State({}, now, None) && bootGraceSecs == graceSecs
    {
      bootGraceSecs := graceSecs;
      wasOffline, bootAt, lastPid := map[], now, None;
    }

    method ObserveBoot(t: Tick)
      modifies this`bootAt, this`lastPid
      ensures Current() == TrackBoot(old(Current()), t)
    {
      match t.heartbeat
      case Failed =>
      case Fetched(None) =>
      case Fetched(Some(None)) =>
      case Fetched(Some(Some(pid))) =>
        if lastPid != Some(pid) {
          if lastPid.Some? {
            bootAt := t.now;
          }
          lastPid := Some(pid);
        }
    }

    method RunTick(t: Tick) returns (events: set<CameraId>)
      requires WellFormed(t)
      modifies this
      ensures Current() == Next(bootGraceSecs, old(Current()), t)
      ensures events == Events(bootGraceSecs, TrackBoot(old(Current()), t), t)
    {
      ObserveBoot(t);
      events := {};
      if t.rule.Failed? || t.rule.value.None? {
        return;
      }
      events := CheckCameraOffline(t);
    }

    method CheckCameraOffline(t: Tick) returns (events: set<CameraId>)
      requires WellFormed(t) && t.rule.Fetched? && t.rule.value.Some?
      modifies this`wasOffline
      ensures Latched(wasOffline) == Latches(bootGraceSecs, old(Current()), t)
      ensures events == Events(bootGraceSecs, old(Current()), t)
    {
      events := {};
      if !t.rule.value.value.enabled {
        wasOffline := map[];
        return;
      }
      if t.cameras.Failed? {
        return;
      }
      var cameras := t.cameras.value;
      ghost var s := Current();
      for k := 0 to |cameras|
        invariant events == (set i | 0 <= i < k && Fires(bootGraceSecs, s, t, cameras[i]) :: cameras[i].id)
        invariant forall i :: 0 <= i < k ==>
          (IsLatched(wasOffline, cameras[i].id) <==> StaysLatched(bootGraceSecs, s, t, cameras[i]))
        invariant forall i :: k <= i < |cameras| ==> (IsLatched(wasOffline, cameras[i].id) <==> cameras[i].id in s.latched)
      {
        var fired := CheckCamera(t, cameras[k]);
        if fired {
          events := events + {cameras[k].id};
        }
      }
      wasOffline := map id | id in wasOffline && (exists i :: 0 <= i < |cameras| && cameras[i].id == id) :: wasOffline[id];
    }

    method CheckCamera(t: Tick, cam: CameraRow) returns (fired: bool)
      requires Checks(t)
      modifies this`wasOffline
      ensures fired <==> Fires(bootGraceSecs, old(Current()), t, cam)
      ensures IsLatched(wasOffline, cam.id) <==> StaysLatched(bootGraceSecs, old(Current()), t, cam)
      ensures forall id :: id != cam.id ==> (IsLatched(wasOffline, id) <==> IsLatched(old(wasOffline), id))
    {
      fired := false;
      var threshold := Threshold(t.rule.value.value);
      var age := Age(t, cam);
      if age.Failed? {
        return;
      }
      var offline := OfflineFromAge(age.value, threshold);
      var was := cam.id in wasOffline && wasOffline[cam.id];
      if offline && !was && WithinBootGrace((t.now - bootAt) / 1000, bootGraceSecs) {
        return;
      }
      if offline && !was && WithinCreateGrace(age.value, cam.secsSinceCreated, CreateGraceSecs(threshold, bootGraceSecs)) {
        return;
      }
      if offline && !was {
        if cam.writeWorks {
          wasOffline := wasOffline[cam.id := true];
          fired := true;
        }
      } else if !offline && was {
        wasOffline := wasOffline[cam.id := false];
      }
    }
  }

  predicate IsLatched(m: map<CameraId, bool>, id: CameraId) {
    id in m && m[id]
  }

  function Latched(m: map<CameraId, bool>): set<CameraId> {
    set id | id in m && m[id]
  }

  // ---- one tick, read off what it found ---------------------------------------

  /** Whose age counts: the motion cache of a camera that records on motion, unless shadow mode
      is known to be on; else the last segment. */
  function SignOfLife(t: Tick, cam: CameraRow): Fetch<Option<int>> {
    match (cam.motionMode, t.shadowMode)
    case (true, Failed) => cam.cacheAge
    case (true, Fetched(None)) => cam.cacheAge
    case (true, Fetched(Some(shadow))) => if shadow then cam.segmentAge else cam.cacheAge
    case (false, _) => cam.segmentAge
  }

  /** Never seen, or last seen longer than the limit ago. */
  ghost predicate Silent(age: Fetch<Option<int>>, limit: int) {
    age == Fetched(None) || exists a :: age == Fetched(Some(a)) && a > limit
  }

  ghost predicate Alive(age: Fetch<Option<int>>, limit: int) {
    exists a :: age == Fetched(Some(a)) && a <= limit
  }

  /** A rule that cannot be read or is missing, or cameras that cannot be listed: nothing is
      reported and every latch stays. A rule that is off: nothing is reported, no latch stays. */
  lemma UncheckedTick(graceSecs: nat, s: State, t: Tick)
    requires t.rule.Failed? || t.rule.value.None? || !t.rule.value.value.enabled || t.cameras.Failed?
    ensures Events(graceSecs, s, t) == {}
    ensures Latches(graceSecs, s, t) ==
            if t.rule.Fetched? && t.rule.value.Some? && !t.rule.value.value.enabled then {} else s.latched
  {
  }

  /** Otherwise, with `limit` the seconds of the rule, 120 if it names none: a camera is reported
      exactly if it is silent, has not been reported yet, neither grace holds, and the write
      works; and it is latched after the tick exactly if it is reported or was and is not alive. */
  lemma CheckedTick(graceSecs: nat, s: State, t: Tick, limit: int, k: nat)
    requires t.rule.Fetched? && t.rule.value.Some? && t.rule.value.value.enabled && t.cameras.Fetched? && WellFormed(t)
    requires t.rule.value.value.thresholdSecs == Some(limit) || (t.rule.value.value.thresholdSecs.None? && limit == 120)
    requires k < |t.cameras.value|
    ensures var cam := t.cameras.value[k]; var age := SignOfLife(t, cam);
            && (cam.id in Events(graceSecs, s, t) <==>
                  && Silent(age, limit) && cam.id !in s.latched && t.now - s.bootAt >= 1000 * graceSecs
                  && (age == Fetched(None) ==> cam.secsSinceCreated >= limit && cam.secsSinceCreated >= graceSecs)
                  && cam.writeWorks)
            && (cam.id in Latches(graceSecs, s, t) <==>
                  cam.id in Events(graceSecs, s, t) || (cam.id in s.latched && !Alive(age, limit)))
  {
    var cam := t.cameras.value[k];
    var age := SignOfLife(t, cam);
    assert Age(t, cam) == age && Threshold(t.rule.value.value) == limit;
    assert Offline(t, cam) <==> Silent(age, limit);
    assert Online(t, cam) <==> Alive(age, limit);
    OnlyRow(graceSecs, s, t, k);
  }

  /** No other row of the tick has the camera's id. */
  lemma OnlyRow(graceSecs: nat, s: State, t: Tick, k: nat)
    requires Checks(t) && WellFormed(t) && k < |t.cameras.value|
    ensures var cam := t.cameras.value[k];
            && (cam.id in Events(graceSecs, s, t) <==> Fires(graceSecs, s, t, cam))
            && (cam.id in Latches(graceSecs, s, t) <==> StaysLatched(graceSecs, s, t, cam))
  {
    var cam := t.cameras.value[k];
    assert forall i :: 0 <= i < |t.cameras.value| && t.cameras.value[i].id == cam.id ==> i == k;
  }

  // ---- whole traces -----------------------------------------------------------

  /** The states between the ticks of one watchdog process; the clock never runs back. */
  ghost predicate IsTrace(graceSecs: nat, ss: seq<State>, ts: seq<Tick>) {
    && |ss| == |ts| + 1 && ss[0].latched == {} && ss[0].lastPid == None
    && (forall i :: 0 <= i < |ts| ==> WellFormed(ts[i]) && ss[i + 1] == Next(graceSecs, ss[i], ts[i]))
    && (forall i :: 0 <= i < |ts| ==> ss[0].bootAt <= ts[i].now)
    && (forall i, j :: 0 <= i < j < |ts| ==> ts[i].now <= ts[j].now)
  }

  /** Tick `i` writes a `camera_offline` event for camera `c`. */
  ghost predicate EventAt(graceSecs: nat, ss: seq<State>, ts: seq<Tick>, i: nat, c: CameraId)
    requires i < |ts| < |ss|
  {
    c in Events(graceSecs, TrackBoot(ss[i], ts[i]), ts[i])
  }

  ghost predicate Listed(t: Tick, c: CameraId, k: nat)
    requires Checks(t)
  {
    k < |t.cameras.value| && t.cameras.value[k].id == c
  }

  /** The tick saw the rule disabled, no longer listed the camera, or saw it online. */
  ghost predicate Clears(t: Tick, c: CameraId) {
    || RuleIsOff(t)
    || (Checks(t) && forall k: nat :: Listed(t, c, k) ==> Online(t, t.cameras.value[k]))
  }

  /** No tick after `i` and before `n` clears the camera. */
  ghost predicate KeptSince(ts: seq<Tick>, i: int, n: nat, c: CameraId)
    requires -1 <= i && n <= |ts|
  {
    forall k :: i < k < n ==> !Clears(ts[k], c)
  }

  ghost predicate ReportedAndKept(graceSecs: nat, ss: seq<State>, ts: seq<Tick>, n: nat, c: CameraId)
    requires n <= |ts| < |ss|
  {
    exists i: nat :: i < n && EventAt(graceSecs, ss, ts, i, c) && KeptSince(ts, i, n, c)
  }

  lemma ReportedStep(graceSecs: nat, ss: seq<State>, ts: seq<Tick>, n: nat, c: CameraId)
    requires n < |ts| < |ss|
    ensures ReportedAndKept(graceSecs, ss, ts, n + 1, c)
       <==> EventAt(graceSecs, ss, ts, n, c) || (ReportedAndKept(graceSecs, ss, ts, n, c) && !Clears(ts[n], c))
  {
    if EventAt(graceSecs, ss, ts, n, c) {
      assert KeptSince(ts, n, n + 1, c);
    }
    if ReportedAndKept(graceSecs, ss, ts, n, c) && !Clears(ts[n], c) {
      var i: nat :| i < n && EventAt(graceSecs, ss, ts, i, c) && KeptSince(ts, i, n, c);
      assert KeptSince(ts, i, n + 1, c);
    }
    if ReportedAndKept(graceSecs, ss, ts, n + 1, c) {
      var i: nat :| i < n + 1 && EventAt(graceSecs, ss, ts, i, c) && KeptSince(ts, i, n + 1, c);
      assert i < n ==> KeptSince(ts, i, n, c);
    }
  }

  /** A camera is latched exactly when it has been reported and nothing cleared it since. */
  lemma {:induction false} LatchMeans(graceSecs: nat, ss: seq<State>, ts: seq<Tick>, n: nat, c: CameraId)
    requires IsTrace(graceSecs, ss, ts) && n <= |ts|
    ensures c in ss[n].latched <==> ReportedAndKept(graceSecs, ss, ts, n, c)
  {
    if n > 0 {
      LatchMeans(graceSecs, ss, ts, n - 1, c);
      ReportedStep(graceSecs, ss, ts, n - 1, c);
    }
  }

  /** Two reports of one camera are separated by a tick that saw the rule disabled, no longer
      listed the camera, or saw it online. */
  lemma ReportsAreSeparated(graceSecs: nat, ss: seq<State>, ts: seq<Tick>, i: nat, j: nat, c: CameraId)
    requires IsTrace(graceSecs, ss, ts) && i < j < |ts|
    requires EventAt(graceSecs, ss, ts, i, c) && EventAt(graceSecs, ss, ts, j, c)
    ensures exists k :: i < k < j && Clears(ts[k], c)
  {
    LatchMeans(graceSecs, ss, ts, j, c);
    assert !KeptSince(ts, i, j, c);
  }

  /** In this tick everything works and the camera, out of both graces, is offline. */
  ghost predicate ShouldReport(graceSecs: nat, s: State, t: Tick, c: CameraId, k: nat) {
    && Checks(t) && Listed(t, c, k) && Offline(t, t.cameras.value[k]) && t.cameras.value[k].writeWorks
    && !Graced(graceSecs, TrackBoot(s, t), t, t.cameras.value[k])
  }

  /** By the end of such a tick the outage has been reported, in this tick or an earlier one
      since which nothing has cleared it: a report is delayed by the graces, never lost. */
  lemma OutageIsReported(graceSecs: nat, ss: seq<State>, ts: seq<Tick>, n: nat, c: CameraId, k: nat)
    requires IsTrace(graceSecs, ss, ts) && n < |ts| && ShouldReport(graceSecs, ss[n], ts[n], c, k)
    ensures ReportedAndKept(graceSecs, ss, ts, n + 1, c)
  {
    LatchMeans(graceSecs, ss, ts, n + 1, c);
    assert c !in ss[n].latched ==> Fires(graceSecs, TrackBoot(ss[n], ts[n]), ts[n], ts[n].cameras.value[k]);
    assert !Online(ts[n], ts[n].cameras.value[k]);
  }

  // ---- boot tracking over a trace ---------------------------------------------

  /** Every heartbeat that carries a process id carries `pid`. */
  ghost predicate StablePid(ts: seq<Tick>, n: nat, pid: int)
    requires n <= |ts|
  {
    forall i :: 0 <= i < n && Pid(ts[i]).Some? ==> Pid(ts[i]) == Some(pid)
  }

  lemma {:induction false} StablePidKeepsBoot(graceSecs: nat, ss: seq<State>, ts: seq<Tick>, n: nat, pid: int)
    requires IsTrace(graceSecs, ss, ts) && n <= |ts| && StablePid(ts, n, pid)
    ensures ss[n].bootAt == ss[0].bootAt && (ss[n].lastPid.Some? ==> ss[n].lastPid == Some(pid))
  {
    if n > 0 {
      StablePidKeepsBoot(graceSecs, ss, ts, n - 1, pid);
    }
  }

  /** With a stable recorder, a camera that is offline is reported by the first tick in
      which the checks work, the watchdog has run for the boot grace, and the camera has
      been seen before or is older than the creation grace. */
  lemma ReportedAfterGraces(graceSecs: nat, ss: seq<State>, ts: seq<Tick>, n: nat, pid: int, c: CameraId, k: nat)
    requires IsTrace(graceSecs, ss, ts) && n < |ts| && StablePid(ts, n + 1, pid)
    requires Checks(ts[n]) && Listed(ts[n], c, k)
    requires Offline(ts[n], ts[n].cameras.value[k]) && ts[n].cameras.value[k].writeWorks
    requires ts[n].now - ss[0].bootAt >= 1000 * graceSecs
    requires var cam := ts[n].cameras.value[k];
             Age(ts[n], cam).value.Some?
             || (cam.secsSinceCreated >= graceSecs && cam.secsSinceCreated >= Threshold(ts[n].rule.value.value))
    ensures ReportedAndKept(graceSecs, ss, ts, n + 1, c)
  {
    StablePidKeepsBoot(graceSecs, ss, ts, n + 1, pid);
    assert TrackBoot(ss[n], ts[n]).bootAt == ss[n + 1].bootAt == ss[0].bootAt;
    OutageIsReported(graceSecs, ss, ts, n, c, k);
  }

  lemma {:induction false} BootAfterRestart(graceSecs: nat, ss: seq<State>, ts: seq<Tick>, k: nat, n: nat)
    requires IsTrace(graceSecs, ss, ts) && k < n <= |ts| && Restarted(ss[k], ts[k])
    ensures ss[n].bootAt >= ts[k].now
    decreases n
  {
    if n > k + 1 {
      BootAfterRestart(graceSecs, ss, ts, k, n - 1);
    }
  }

  /** The last process id any heartbeat carried is remembered. */
  lemma {:induction false} LastPidIsKept(graceSecs: nat, ss: seq<State>, ts: seq<Tick>, j: nat, n: nat)
    requires IsTrace(graceSecs, ss, ts) && j < n <= |ts| && Pid(ts[j]).Some?
    requires forall i :: j < i < n ==> Pid(ts[i]).None?
    ensures ss[n].lastPid == Pid(ts[j])
    decreases n
  {
    if n > j + 1 {
      LastPidIsKept(graceSecs, ss, ts, j, n - 1);
    }
  }

  /** Two heartbeats with different process ids and none between them: after the second no
      camera is reported for the length of the grace. */
  lemma QuietAfterRestart(graceSecs: nat, ss: seq<State>, ts: seq<Tick>, j: nat, k: nat, n: nat, c: CameraId)
    requires IsTrace(graceSecs, ss, ts) && j < k <= n < |ts| && EventAt(graceSecs, ss, ts, n, c)
    requires Pid(ts[j]).Some? && Pid(ts[k]).Some? && Pid(ts[j]) != Pid(ts[k])
    requires forall i :: j < i < k ==> Pid(ts[i]).None?
    ensures ts[n].now - ts[k].now >= 1000 * graceSecs
  {
    LastPidIsKept(graceSecs, ss, ts, j, k);
    BootAfterRestart(graceSecs, ss, ts, k, n + 1);
    assert TrackBoot(ss[n], ts[n]).bootAt == ss[n + 1].bootAt;
  }

  /** A camera that has never reported is not reported while it is younger than both the
      offline threshold and the boot grace allow. */
  lemma QuietAfterCreation(graceSecs: nat, ss: seq<State>, ts: seq<Tick>, n: nat, c: CameraId, k: nat)
    requires IsTrace(graceSecs, ss, ts) && n < |ts| && Checks(ts[n]) && Listed(ts[n], c, k)
    requires EventAt(graceSecs, ss, ts, n, c)
    ensures var cam := ts[n].cameras.value[k];
            Age(ts[n], cam) == Fetched(None) ==>
              cam.secsSinceCreated >= graceSecs && cam.secsSinceCreated >= Threshold(ts[n].rule.value.value)
  {
    assert forall j: nat :: Listed(ts[n], c, j) ==> j == k;
  }
}
