/** The recording knobs of a policy, and patching a partial request over them. */
module PolicyFields {
  import opened Options

  datatype Mode = Continuous | Motion
  datatype Sensitivity = Dynamic | Manual
  datatype RecordStream = Main | Sub

  /** The behaviour columns: two policies are the same policy exactly when all agree. */
  datatype Fields = Fields(
    mode: Mode,
    liveStorage: Option<nat>,
    liveRetentionHours: int,
    archiveEnabled: bool,
    archiveStorage: Option<nat>,
    archiveSchedule: Option<string>,
    archiveRetentionHours: Option<int>,
    liveMaxBytes: Option<int>,
    archiveMaxBytes: Option<int>,
    liveMinFreePct: Option<real>,
    liveMinFreeBytes: Option<int>,
    liveSpillLowWaterBytes: Option<int>,
    maxRetentionDays: Option<int>,
    motionPreSeconds: int,
    motionPostSeconds: int,
    motionSensitivity: Sensitivity,
    motionThreshold: Option<real>,
    motionKeyframesOnly: bool,
    recordStream: RecordStream,
    recordAudio: bool)

  /** A field left out (`None`) keeps the old value; for a nullable field `Some(None)`
      clears it. */
  datatype Request = Request(
    mode: Option<Mode>,
    liveStorage: Option<nat>,
    liveRetentionHours: Option<int>,
    archiveEnabled: Option<bool>,
    archiveStorage: Option<Option<nat>>,
    archiveSchedule: Option<Option<string>>,
    archiveRetentionHours: Option<Option<int>>,
    liveMaxBytes: Option<Option<int>>,
    archiveMaxBytes: Option<Option<int>>,
    liveMinFreePct: Option<Option<real>>,
    liveMinFreeBytes: Option<Option<int>>,
    liveSpillLowWaterBytes: Option<Option<int>>,
    maxRetentionDays: Option<Option<int>>,
    motionPreSeconds: Option<int>,
    motionPostSeconds: Option<int>,
    motionSensitivity: Option<string>,
    motionThreshold: Option<Option<real>>,
    motionKeyframesOnly: Option<bool>,
    recordStream: Option<string>,
    recordAudio: Option<bool>)

  datatype Error = InvalidValue | CapWithoutArchive | SpillNotBelowCap | UnknownName | CameraNotFound | CameraIsGrouped
  datatype Resolution = Resolved(fields: Fields) | Rejected(error: Error)

  function ParseSensitivity(s: string): Option<Sensitivity> {
    if s == "dynamic" then Some(Dynamic) else if s == "manual" then Some(Manual) else None
  }

  function ParseRecordStream(s: string): Option<RecordStream> {
    if s == "main" then Some(Main) else if s == "sub" then Some(Sub) else None
  }

  function Or<T>(patch: Option<T>, base: T): T {
    if patch.Some? then patch.value else base
  }

  function ClampThreshold(v: Option<real>): Option<real> {
    if v.None? then None
    else if v.value < 0.0005 then Some(0.0005)
    else if v.value > 0.05 then Some(0.05)
    else v
  }

  predicate NonNegative(v: Option<Option<int>>) {
    v.Some? && v.value.Some? ==> v.value.value >= 0
  }

  predicate Positive(v: Option<Option<int>>) {
    v.Some? && v.value.Some? ==> v.value.value > 0
  }

  /** The checks a request must pass on its own, before any policy is looked at. */
  predicate WellFormed(r: Request) {
    && (r.motionSensitivity.Some? ==> ParseSensitivity(r.motionSensitivity.value).Some?)
    && (r.recordStream.Some? ==> ParseRecordStream(r.recordStream.value).Some?)
    && (r.liveRetentionHours.Some? ==> r.liveRetentionHours.value > 0)
    && Positive(r.archiveRetentionHours) && Positive(r.maxRetentionDays)
    && NonNegative(r.liveMaxBytes) && NonNegative(r.archiveMaxBytes)
    && NonNegative(r.liveMinFreeBytes) && NonNegative(r.liveSpillLowWaterBytes)
    && (r.liveMinFreePct.Some? && r.liveMinFreePct.value.Some? ==> 0.0 <= r.liveMinFreePct.value.value < 1.0)
    && (r.motionPreSeconds.Some? ==> r.motionPreSeconds.value >= 0)
    && (r.motionPostSeconds.Some? ==> r.motionPostSeconds.value >= 0)
  }

  /** A positive spill target must stay below every positive cap it drains to. */
  predicate SpillBelow(spill: Option<int>, cap: Option<int>) {
    spill.Some? && spill.value > 0 && cap.Some? && cap.value > 0 ==> spill.value < cap.value
  }

  /** The request patched over a policy, for a request whose names are known. */
  function Patched(base: Fields, r: Request): Fields
    requires r.motionSensitivity.Some? ==> ParseSensitivity(r.motionSensitivity.value).Some?
    requires r.recordStream.Some? ==> ParseRecordStream(r.recordStream.value).Some?
  {
    Fields(
      Or(r.mode, base.mode),
      if r.liveStorage.Some? then r.liveStorage else base.liveStorage,
      Or(r.liveRetentionHours, base.liveRetentionHours),
      Or(r.archiveEnabled, base.archiveEnabled),
      Or(r.archiveStorage, base.archiveStorage),
      Or(r.archiveSchedule, base.archiveSchedule),
      Or(r.archiveRetentionHours, base.archiveRetentionHours),
      Or(r.liveMaxBytes, base.liveMaxBytes),
      Or(r.archiveMaxBytes, base.archiveMaxBytes),
      Or(r.liveMinFreePct, base.liveMinFreePct),
      Or(r.liveMinFreeBytes, base.liveMinFreeBytes),
      Or(r.liveSpillLowWaterBytes, base.liveSpillLowWaterBytes),
      Or(r.maxRetentionDays, base.maxRetentionDays),
      Or(r.motionPreSeconds, base.motionPreSeconds),
      Or(r.motionPostSeconds, base.motionPostSeconds),
      if r.motionSensitivity.Some? then ParseSensitivity(r.motionSensitivity.value).value else base.motionSensitivity,
      if r.motionThreshold.Some? then ClampThreshold(r.motionThreshold.value) else base.motionThreshold,
      Or(r.motionKeyframesOnly, base.motionKeyframesOnly),
      if r.recordStream.Some? then ParseRecordStream(r.recordStream.value).value else base.recordStream,
      Or(r.recordAudio, base.recordAudio))
  }

  function Resolve(base: Fields, r: Request): Resolution {
    var archiveEnabled := Or(r.archiveEnabled, base.archiveEnabled);
    var liveMaxBytes := Or(r.liveMaxBytes, base.liveMaxBytes);
    var archiveMaxBytes := Or(r.archiveMaxBytes, base.archiveMaxBytes);
    var spill := Or(r.liveSpillLowWaterBytes, base.liveSpillLowWaterBytes);
    if archiveMaxBytes.Some? && !archiveEnabled then Rejected(CapWithoutArchive)
    else if !SpillBelow(spill, liveMaxBytes) || !SpillBelow(spill, archiveMaxBytes) then Rejected(SpillNotBelowCap)
    else if r.motionSensitivity.Some? && ParseSensitivity(r.motionSensitivity.value).None? then Rejected(UnknownName)
    else if r.recordStream.Some? && ParseRecordStream(r.recordStream.value).None? then Rejected(UnknownName)
    else Resolved(Patched(base, r))
  }

  // ---- what a request asks for, field by field --------------------------------

  /** A field holds the value that was sent, and what it held before if none was. */
  predicate SentOrKept<T(==)>(sent: Option<T>, was: T, now: T) {
    match sent
    case Some(v) => now == v
    case None => now == was
  }

  predicate InThresholdRange(x: real) {
    0.0005 <= x <= 0.05
  }

  function Distance(x: real, y: real): real {
    if x < y then y - x else x - y
  }

  /** A threshold that is sent is replaced by the nearest one allowed. */
  ghost predicate ThresholdFollows(sent: Option<Option<real>>, was: Option<real>, now: Option<real>) {
    match sent
    case None => now == was
    case Some(None) => now == None
    case Some(Some(v)) =>
      && now.Some? && InThresholdRange(now.value)
      && forall x :: InThresholdRange(x) ==> Distance(v, now.value) <= Distance(v, x)
  }

  predicate SensitivityFollows(sent: Option<string>, was: Sensitivity, now: Sensitivity) {
    match sent
    case None => now == was
    case Some(name) => (name == "dynamic" && now == Dynamic) || (name == "manual" && now == Manual)
  }

  predicate StreamFollows(sent: Option<string>, was: RecordStream, now: RecordStream) {
    match sent
    case None => now == was
    case Some(name) => (name == "main" && now == Main) || (name == "sub" && now == Sub)
  }

  /** `now` is what the request asks for over `was`. A live storage can be sent but not
      cleared. */
  ghost predicate Follows(r: Request, was: Fields, now: Fields) {
    && SentOrKept(r.mode, was.mode, now.mode)
    && now.liveStorage == (match r.liveStorage case Some(id) => Some(id) case None => was.liveStorage)
    && SentOrKept(r.liveRetentionHours, was.liveRetentionHours, now.liveRetentionHours)
    && SentOrKept(r.archiveEnabled, was.archiveEnabled, now.archiveEnabled)
    && SentOrKept(r.archiveStorage, was.archiveStorage, now.archiveStorage)
    && SentOrKept(r.archiveSchedule, was.archiveSchedule, now.archiveSchedule)
    && SentOrKept(r.archiveRetentionHours, was.archiveRetentionHours, now.archiveRetentionHours)
    && SentOrKept(r.liveMaxBytes, was.liveMaxBytes, now.liveMaxBytes)
    && SentOrKept(r.archiveMaxBytes, was.archiveMaxBytes, now.archiveMaxBytes)
    && SentOrKept(r.liveMinFreePct, was.liveMinFreePct, now.liveMinFreePct)
    && SentOrKept(r.liveMinFreeBytes, was.liveMinFreeBytes, now.liveMinFreeBytes)
    && SentOrKept(r.liveSpillLowWaterBytes, was.liveSpillLowWaterBytes, now.liveSpillLowWaterBytes)
    && SentOrKept(r.maxRetentionDays, was.maxRetentionDays, now.maxRetentionDays)
    && SentOrKept(r.motionPreSeconds, was.motionPreSeconds, now.motionPreSeconds)
    && SentOrKept(r.motionPostSeconds, was.motionPostSeconds, now.motionPostSeconds)
    && SensitivityFollows(r.motionSensitivity, was.motionSensitivity, now.motionSensitivity)
    && ThresholdFollows(r.motionThreshold, was.motionThreshold, now.motionThreshold)
    && SentOrKept(r.motionKeyframesOnly, was.motionKeyframesOnly, now.motionKeyframesOnly)
    && StreamFollows(r.recordStream, was.recordStream, now.recordStream)
    && SentOrKept(r.recordAudio, was.recordAudio, now.recordAudio)
  }

  predicate AtLeast(v: Option<int>, least: int) {
    v.Some? ==> v.value >= least
  }

  /** The values a policy may hold, each field on its own. */
  predicate InRange(f: Fields) {
    && f.liveRetentionHours >= 1 && AtLeast(f.archiveRetentionHours, 1) && AtLeast(f.maxRetentionDays, 1)
    && AtLeast(f.liveMaxBytes, 0) && AtLeast(f.archiveMaxBytes, 0)
    && AtLeast(f.liveMinFreeBytes, 0) && AtLeast(f.liveSpillLowWaterBytes, 0)
    && (f.liveMinFreePct.Some? ==> 0.0 <= f.liveMinFreePct.value < 1.0)
    && f.motionPreSeconds >= 0 && f.motionPostSeconds >= 0
    && (f.motionThreshold.Some? ==> InThresholdRange(f.motionThreshold.value))
  }

  /** After the request the nullable field holds `v`: sent, or there before and not sent. */
  predicate Stands(sent: Option<Option<int>>, was: Option<int>, v: int) {
    sent == Some(Some(v)) || (sent == None && was == Some(v))
  }

  /** A cap on the archive stands while the archive is off. */
  ghost predicate CapStandsAlone(r: Request, was: Fields) {
    && (r.archiveEnabled == Some(false) || (r.archiveEnabled == None && !was.archiveEnabled))
    && exists cap :: Stands(r.archiveMaxBytes, was.archiveMaxBytes, cap)
  }

  /** A spill target stands that reaches a positive cap. */
  ghost predicate SpillReaches(sentSpill: Option<Option<int>>, wasSpill: Option<int>,
                          sentCap: Option<Option<int>>, wasCap: Option<int>) {
    exists spill, cap :: Stands(sentSpill, wasSpill, spill) && Stands(sentCap, wasCap, cap) && 0 < cap <= spill
  }

  ghost predicate SpillReachesCap(r: Request, was: Fields) {
    || SpillReaches(r.liveSpillLowWaterBytes, was.liveSpillLowWaterBytes, r.liveMaxBytes, was.liveMaxBytes)
    || SpillReaches(r.liveSpillLowWaterBytes, was.liveSpillLowWaterBytes, r.archiveMaxBytes, was.archiveMaxBytes)
  }

  lemma StandingIsPatched(sent: Option<Option<int>>, was: Option<int>, v: int)
    ensures Stands(sent, was, v) <==> Or(sent, was) == Some(v)
  {
  }

  lemma SpillReachesExactly(sentSpill: Option<Option<int>>, wasSpill: Option<int>,
                       sentCap: Option<Option<int>>, wasCap: Option<int>)
    ensures SpillReaches(sentSpill, wasSpill, sentCap, wasCap) <==> !SpillBelow(Or(sentSpill, wasSpill), Or(sentCap, wasCap))
  {
    var spill, cap := Or(sentSpill, wasSpill), Or(sentCap, wasCap);
    if spill.Some? && cap.Some? {
      StandingIsPatched(sentSpill, wasSpill, spill.value);
      StandingIsPatched(sentCap, wasCap, cap.value);
    }
  }

  lemma ClampIsNearest(sent: Option<Option<real>>, was: Option<real>)
    ensures ThresholdFollows(sent, was, if sent.Some? then ClampThreshold(sent.value) else was)
  {
  }

  lemma PatchedFollows(r: Request, was: Fields)
    requires WellFormed(r)
    ensures Follows(r, was, Patched(was, r))
  {
    ClampIsNearest(r.motionThreshold, was.motionThreshold);
  }

  /** The fields that are asked for are determined. */
  lemma FollowsIsUnique(r: Request, was: Fields, now: Fields, other: Fields)
    requires Follows(r, was, now) && Follows(r, was, other)
    ensures now == other
  {
    ThresholdIsUnique(r.motionThreshold, was.motionThreshold, now.motionThreshold, other.motionThreshold);
  }

  lemma ThresholdIsUnique(sent: Option<Option<real>>, was: Option<real>, now: Option<real>, other: Option<real>)
    requires ThresholdFollows(sent, was, now) && ThresholdFollows(sent, was, other)
    ensures now == other
  {
    if sent.Some? && sent.value.Some? {
      assert InThresholdRange((now.value + other.value) / 2.0);
    }
  }

  lemma CapStandsExactly(r: Request, was: Fields)
    ensures CapStandsAlone(r, was) <==>
      Or(r.archiveMaxBytes, was.archiveMaxBytes).Some? && !Or(r.archiveEnabled, was.archiveEnabled)
  {
    var cap := Or(r.archiveMaxBytes, was.archiveMaxBytes);
    if cap.Some? {
      StandingIsPatched(r.archiveMaxBytes, was.archiveMaxBytes, cap.value);
    }
  }

  /** A well-formed request is accepted over a policy exactly if neither cross-check fails,
      and then the new fields are the ones it asks for. */
  lemma ResolvesExactly(r: Request, was: Fields)
    requires WellFormed(r)
    ensures Resolve(was, r) == Rejected(CapWithoutArchive) <==> CapStandsAlone(r, was)
    ensures Resolve(was, r) == Rejected(SpillNotBelowCap) <==> !CapStandsAlone(r, was) && SpillReachesCap(r, was)
    ensures Resolve(was, r).Resolved? <==> !CapStandsAlone(r, was) && !SpillReachesCap(r, was)
    ensures Resolve(was, r).Resolved? ==> Resolve(was, r).fields == Patched(was, r)
  {
    CapStandsExactly(r, was);
    SpillReachesExactly(r.liveSpillLowWaterBytes, was.liveSpillLowWaterBytes, r.liveMaxBytes, was.liveMaxBytes);
    SpillReachesExactly(r.liveSpillLowWaterBytes, was.liveSpillLowWaterBytes, r.archiveMaxBytes, was.archiveMaxBytes);
  }

  /** What a well-formed request asks for over a policy in range is in range. */
  lemma PatchedInRange(r: Request, was: Fields)
    requires WellFormed(r) && InRange(was)
    ensures InRange(Patched(was, r))
  {
  }

  /** A well-formed request leads from every policy in range to one in range; any other
      request leads to none, from whatever policy. */
  lemma WellFormedExactly(r: Request, was: Fields)
    ensures WellFormed(r) && InRange(was) ==> exists now :: Follows(r, was, now) && InRange(now)
    ensures !WellFormed(r) ==> !exists now :: Follows(r, was, now) && InRange(now)
  {
    if WellFormed(r) && InRange(was) {
      PatchedFollows(r, was);
      PatchedInRange(r, was);
    }
  }

  /** Patching twice is patching once, and a request that was accepted over a base is
      accepted over its own result. */
  lemma ResolveIsIdempotent(base: Fields, r: Request)
    requires Resolve(base, r).Resolved?
    ensures Resolve(Resolve(base, r).fields, r) == Resolve(base, r)
  {
  }
}
