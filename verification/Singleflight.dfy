/** Generating a clip rendition once: the per-rendition lock, the transcode permits and
    the atomic publication of the finished file, under any interleaving of requests,
    failures, disconnects, prunes and other users of the permits.

    Each `Action` is one atomic step of a request handler or of its surroundings. */
module Singleflight {
  import opened Basics
  import opened SetSizes

  type Key = nat      // a file name in the cache directory
  type RequestId = nat
  type LockId = nat

  /** The lock registry is emptied wholesale when a request finds more entries than this. */
  const REGISTRY_CAP: nat := 8192

  datatype Stage =
    | Queued          // has the lock object, waits for it
    | Checking        // holds the lock, about to look for the file
    | AwaitingPermit  // holds the lock, waits for a transcode permit
    | Rechecking      // holds lock and permit, about to look again
    | Transcoding     // holds lock and permit, ffmpeg runs
    | Pruning         // holds the lock, permit released

  datatype Request = Request(key: Key, lock: LockId, stage: Stage)
  datatype Contents = Half | Whole

  datatype State = State(
    registry: map<Key, LockId>,
    nextLock: LockId,
    requests: map<RequestId, Request>,
    free: nat,                             // permits not handed out
    others: nat,                           // permits held for thumbnails and segment transcodes
    visible: map<Key, Contents>,           // files under their final name
    temps: map<RequestId, Contents>,       // partial files
    produced: multiset<Key>,               // finished transcodes that were published
    evicted: multiset<Key>,                // published files removed again
    overwritten: multiset<Key>)            // publications that replaced a visible file

  datatype Action =
    | Arrive(r: RequestId, k: Key)
    | Thumbnail(k: Key)                    // a missing thumbnail is asked for and takes a lock object
    | TakeLock(r: RequestId)
    | CheckCache(r: RequestId)
    | TakePermit(r: RequestId)
    | Recheck(r: RequestId)
    | Encoded(r: RequestId)
    | Publish(r: RequestId)
    | Leave(r: RequestId)                  // answered, refused, failed or disconnected
    | Evict(k: Key)
    | OtherTakes
    | OtherReturns

  function Init(permits: nat): State {
    State(map[], 0, map[], permits, 0, map[], map[], multiset{}, multiset{}, multiset{})
  }

  predicate HoldsLock(q: Request) {
    q.stage != Queued
  }

  predicate HoldsPermit(q: Request) {
    q.stage == Rechecking || q.stage == Transcoding
  }

  predicate At(s: State, r: RequestId, stage: Stage) {
    r in s.requests && s.requests[r].stage == stage
  }

  ghost predicate Enabled(s: State, a: Action) {
    match a
    case Arrive(r, k) => r !in s.requests && r !in s.temps
    case Thumbnail(k) => true
    case TakeLock(r) =>
      At(s, r, Queued) && forall q :: q in s.requests && s.requests[q].lock == s.requests[r].lock ==> !HoldsLock(s.requests[q])
    case CheckCache(r) => At(s, r, Checking)
    case TakePermit(r) => At(s, r, AwaitingPermit) && s.free > 0
    case Recheck(r) => At(s, r, Rechecking)
    case Encoded(r) => At(s, r, Transcoding) && r in s.temps
    case Publish(r) => At(s, r, Transcoding) && r in s.temps && s.temps[r] == Whole
    case Leave(r) => r in s.requests
    case Evict(k) => k in s.visible
    case OtherTakes => s.free > 0
    case OtherReturns => s.others > 0
  }

  function Moved(s: State, r: RequestId, stage: Stage): State
    requires r in s.requests
  {
    s.(requests := s.requests[r := s.requests[r].(stage := stage)])
  }

  /** What is left of the registry when a lock object is looked up. */
  function RegistryAtArrival(s: State): map<Key, LockId> {
    if |s.registry| > REGISTRY_CAP then map[] else s.registry
  }

  /** The registry once a lock object for `k` has been looked up, made if there is none. */
  function Looked(s: State, k: Key): State {
    var registry := RegistryAtArrival(s);
    if k in registry then s.(registry := registry)
    else s.(registry := registry[k := s.nextLock], nextLock := s.nextLock + 1)
  }

  function Arrived(s: State, r: RequestId, k: Key): State {
    var looked := Looked(s, k);
    looked.(requests := s.requests[r := Request(k, looked.registry[k], Queued)])
  }

  ghost function Do(s: State, a: Action): State
    requires Enabled(s, a)
  {
    match a
    case Arrive(r, k) => Arrived(s, r, k)
    case Thumbnail(k) => Looked(s, k)
    case TakeLock(r) => Moved(s, r, Checking)
    case CheckCache(r) =>
      if s.requests[r].key in s.visible then s.(requests := s.requests - {r}) else Moved(s, r, AwaitingPermit)
    case TakePermit(r) => Moved(s, r, Rechecking).(free := s.free - 1)
    case Recheck(r) =>
      if s.requests[r].key in s.visible then Moved(s, r, Pruning).(free := s.free + 1)
      else Moved(s, r, Transcoding).(temps := s.temps[r := Half])
    case Encoded(r) => s.(temps := s.temps[r := Whole])
    case Publish(r) =>
      var k := s.requests[r].key;
      Moved(s, r, Pruning).(free := s.free + 1, temps := s.temps - {r}, visible := s.visible[k := s.temps[r]],
        produced := s.produced + multiset{k},
        overwritten := if k in s.visible then s.overwritten + multiset{k} else s.overwritten)
    case Leave(r) =>
      s.(requests := s.requests - {r}, free := if HoldsPermit(s.requests[r]) then s.free + 1 else s.free)
    case Evict(k) => s.(visible := s.visible - {k}, evicted := s.evicted + multiset{k})
    case OtherTakes => s.(free := s.free - 1, others := s.others + 1)
    case OtherReturns => s.(free := s.free + 1, others := s.others - 1)
  }

  // ---- what every run keeps ---------------------------------------------------

  ghost function PermitHolders(s: State): set<RequestId> {
    set r | r in s.requests && HoldsPermit(s.requests[r])
  }

  /** Permits are conserved. */
  ghost predicate PermitsConserved(s: State, permits: nat) {
    s.free + s.others + |PermitHolders(s)| == permits
  }

  ghost predicate LocksBounded(s: State) {
    && (forall r :: r in s.requests ==> s.requests[r].lock < s.nextLock)
    && (forall k :: k in s.registry ==> s.registry[k] < s.nextLock)
  }

  ghost predicate RegistryAgrees(s: State) {
    && (forall k, r :: k in s.registry && r in s.requests && s.registry[k] == s.requests[r].lock ==> s.requests[r].key == k)
    && (forall k, k' :: k in s.registry && k' in s.registry && s.registry[k] == s.registry[k'] ==> k == k')
  }

  ghost predicate LocksExclusive(s: State) {
    forall q, r :: q in s.requests && r in s.requests && s.requests[q].lock == s.requests[r].lock ==>
      && s.requests[q].key == s.requests[r].key
      && (HoldsLock(s.requests[q]) && HoldsLock(s.requests[r]) ==> q == r)
  }

  /** Every lock belongs to one rendition and is held by at most one request. */
  ghost predicate LocksWork(s: State) {
    LocksBounded(s) && RegistryAgrees(s) && LocksExclusive(s)
  }

  /** Nothing half-written is ever visible, and every publication is accounted for: still
      visible, evicted, or replaced by a later one. */
  ghost predicate FilesAccounted(s: State) {
    && (forall k :: k in s.visible ==> s.visible[k] == Whole)
    && (forall k :: s.produced[k] == s.evicted[k] + s.overwritten[k] + (if k in s.visible then 1 else 0))
  }

  ghost predicate Always(s: State, permits: nat) {
    PermitsConserved(s, permits) && LocksWork(s) && FilesAccounted(s)
  }

  lemma HoldersAfterMove(s: State, s': State, r: RequestId)
    requires r in s.requests && s'.requests.Keys <= s.requests.Keys
    requires forall q :: q in s.requests && q != r ==> q in s'.requests && s'.requests[q] == s.requests[q]
    ensures |PermitHolders(s')| == |PermitHolders(s)|
              - (if HoldsPermit(s.requests[r]) then 1 else 0)
              + (if r in s'.requests && HoldsPermit(s'.requests[r]) then 1 else 0)
  {
    var rest := PermitHolders(s) - {r};
    assert PermitHolders(s) == if HoldsPermit(s.requests[r]) then rest + {r} else rest;
    assert PermitHolders(s') == if r in s'.requests && HoldsPermit(s'.requests[r]) then rest + {r} else rest;
  }

  predicate MovesARequest(a: Action) {
    !a.Arrive? && !a.Thumbnail? && !a.Evict? && !a.OtherTakes? && !a.OtherReturns?
  }

  lemma MoveKeepsPermits(s: State, a: Action, permits: nat)
    requires PermitsConserved(s, permits) && Enabled(s, a) && MovesARequest(a)
    ensures PermitsConserved(Do(s, a), permits)
  {
    HoldersAfterMove(s, Do(s, a), a.r);
  }

  lemma StepKeepsPermits(s: State, a: Action, permits: nat)
    requires PermitsConserved(s, permits) && Enabled(s, a)
    ensures PermitsConserved(Do(s, a), permits)
  {
    if MovesARequest(a) {
      MoveKeepsPermits(s, a, permits);
    } else {
      assert PermitHolders(Do(s, a)) == PermitHolders(s);
    }
  }

  lemma NewLockKeepsLocks(s: State, k: Key)
    requires LocksWork(s) && k !in s.registry
    ensures LocksWork(s.(registry := s.registry[k := s.nextLock], nextLock := s.nextLock + 1))
  {
    var s' := s.(registry := s.registry[k := s.nextLock], nextLock := s.nextLock + 1);
    assert LocksBounded(s');
    assert RegistryAgrees(s');
    assert LocksExclusive(s');
  }

  lemma LookingKeepsLocks(s: State, k: Key)
    requires LocksWork(s)
    ensures LocksWork(Looked(s, k)) && k in Looked(s, k).registry
  {
    var cleared := s.(registry := RegistryAtArrival(s));
    assert LocksWork(cleared);
    if k !in cleared.registry {
      NewLockKeepsLocks(cleared, k);
    }
  }

  lemma JoinKeepsLocks(s: State, r: RequestId, k: Key)
    requires LocksWork(s) && r !in s.requests && k in s.registry
    ensures LocksWork(s.(requests := s.requests[r := Request(k, s.registry[k], Queued)]))
  {
  }

  lemma ArrivalKeepsLocks(s: State, r: RequestId, k: Key)
    requires LocksWork(s) && r !in s.requests
    ensures LocksWork(Arrived(s, r, k))
  {
    LookingKeepsLocks(s, k);
    JoinKeepsLocks(Looked(s, k), r, k);
  }

  lemma TakeLockKeepsLocks(s: State, r: RequestId)
    requires LocksWork(s) && Enabled(s, TakeLock(r))
    ensures LocksWork(Moved(s, r, Checking))
  {
  }

  /** The step looks up a lock object, and empties the registry if it is over its cap. */
  predicate LooksUp(a: Action) {
    a.Arrive? || a.Thumbnail?
  }

  /** A step that takes no lock: requests keep their key and lock, or are gone. */
  ghost predicate TakesNoLock(s: State, s': State) {
    && s'.registry == s.registry && s'.nextLock == s.nextLock
    && forall q :: q in s'.requests ==>
         && q in s.requests && s'.requests[q].key == s.requests[q].key && s'.requests[q].lock == s.requests[q].lock
         && (HoldsLock(s'.requests[q]) ==> HoldsLock(s.requests[q]))
  }

  lemma TakesNoLockKeepsLocks(s: State, s': State)
    requires LocksWork(s) && TakesNoLock(s, s')
    ensures LocksWork(s')
  {
  }

  lemma OtherStepsTakeNoLock(s: State, a: Action)
    requires Enabled(s, a) && !LooksUp(a) && !a.TakeLock?
    ensures TakesNoLock(s, Do(s, a))
  {
    match a
    case CheckCache(r) => MoveTakesNoLock(s, Do(s, a), r);
    case TakePermit(r) => MoveTakesNoLock(s, Do(s, a), r);
    case Recheck(r) => MoveTakesNoLock(s, Do(s, a), r);
    case Publish(r) => MoveTakesNoLock(s, Do(s, a), r);
    case Leave(r) => MoveTakesNoLock(s, Do(s, a), r);
    case _ =>
  }

  lemma MoveTakesNoLock(s: State, s': State, r: RequestId)
    requires r in s.requests && s'.registry == s.registry && s'.nextLock == s.nextLock
    requires s'.requests == s.requests - {r}
          || exists stage :: s'.requests == Moved(s, r, stage).requests && (stage != Queued ==> HoldsLock(s.requests[r]))
    ensures TakesNoLock(s, s')
  {
  }

  lemma StepKeepsLocks(s: State, a: Action)
    requires LocksWork(s) && Enabled(s, a)
    ensures LocksWork(Do(s, a))
  {
    if a.Arrive? {
      ArrivalKeepsLocks(s, a.r, a.k);
    } else if a.Thumbnail? {
      LookingKeepsLocks(s, a.k);
    } else if a.TakeLock? {
      TakeLockKeepsLocks(s, a.r);
    } else {
      OtherStepsTakeNoLock(s, a);
      TakesNoLockKeepsLocks(s, Do(s, a));
    }
  }

  lemma OneMore(m: multiset<Key>, k: Key, x: Key)
    ensures (m + multiset{k})[x] == m[x] + (if x == k then 1 else 0)
  {
  }

  lemma PublishKeepsFiles(s: State, r: RequestId)
    requires FilesAccounted(s) && Enabled(s, Publish(r))
    ensures FilesAccounted(Do(s, Publish(r)))
  {
    var s', k := Do(s, Publish(r)), s.requests[r].key;
    forall x
      ensures s'.produced[x] == s'.evicted[x] + s'.overwritten[x] + (if x in s'.visible then 1 else 0)
    {
      OneMore(s.produced, k, x);
      OneMore(s.overwritten, k, x);
    }
  }

  lemma EvictKeepsFiles(s: State, k: Key)
    requires FilesAccounted(s) && Enabled(s, Evict(k))
    ensures FilesAccounted(Do(s, Evict(k)))
  {
    var s' := Do(s, Evict(k));
    forall x
      ensures s'.produced[x] == s'.evicted[x] + s'.overwritten[x] + (if x in s'.visible then 1 else 0)
    {
      OneMore(s.evicted, k, x);
    }
  }

  lemma OtherStepsTouchNoFile(s: State, a: Action)
    requires Enabled(s, a) && !a.Publish? && !a.Evict?
    ensures Do(s, a).visible == s.visible && Do(s, a).produced == s.produced
    ensures Do(s, a).evicted == s.evicted && Do(s, a).overwritten == s.overwritten
  {
    match a
    case Arrive(_, _) =>
    case Thumbnail(_) =>
    case TakeLock(_) =>
    case CheckCache(_) =>
    case TakePermit(_) =>
    case Recheck(_) =>
    case Encoded(_) =>
    case Leave(_) =>
    case OtherTakes =>
    case OtherReturns =>
  }

  lemma StepKeepsFiles(s: State, a: Action)
    requires FilesAccounted(s) && Enabled(s, a)
    ensures FilesAccounted(Do(s, a))
  {
    if a.Publish? {
      PublishKeepsFiles(s, a.r);
    } else if a.Evict? {
      EvictKeepsFiles(s, a.k);
    } else {
      OtherStepsTouchNoFile(s, a);
    }
  }

  lemma StepKeepsAlways(s: State, a: Action, permits: nat)
    requires Always(s, permits) && Enabled(s, a)
    ensures Always(Do(s, a), permits)
  {
    StepKeepsPermits(s, a, permits);
    StepKeepsLocks(s, a);
    StepKeepsFiles(s, a);
  }

  // ---- runs -------------------------------------------------------------------

  /** The names that are ever asked for. */
  datatype Names = Names(renditions: set<Key>, thumbnails: set<Key>) {
    function All(): set<Key> {
      renditions + thumbnails
    }
  }

  /** One step, which asks only for such names. */
  ghost predicate IsStep(names: Names, s: State, a: Action, s': State) {
    && Enabled(s, a) && s' == Do(s, a)
    && (a.Arrive? ==> a.k in names.renditions) && (a.Thumbnail? ==> a.k in names.thumbnails)
  }

  /** A run from the empty start, asking only for such names. */
  ghost predicate IsRun(names: Names, permits: nat, ss: seq<State>, actions: seq<Action>) {
    && |ss| == |actions| + 1 && ss[0] == Init(permits)
    && forall i :: 0 <= i < |actions| ==> IsStep(names, ss[i], actions[i], ss[i + 1])
  }

  ghost predicate Reachable(names: Names, permits: nat, s: State) {
    exists ss: seq<State>, actions: seq<Action> :: IsRun(names, permits, ss, actions) && s == ss[|actions|]
  }

  lemma {:induction false} RunKeeps(names: Names, permits: nat, ss: seq<State>, actions: seq<Action>, n: nat)
    requires IsRun(names, permits, ss, actions) && n <= |actions|
    ensures Always(ss[n], permits)
  {
    if n == 0 {
      assert PermitHolders(ss[0]) == {};
    } else {
      RunKeeps(names, permits, ss, actions, n - 1);
      var m := n - 1;
      assert IsStep(names, ss[m], actions[m], ss[m + 1]);
      StepKeepsAlways(ss[m], actions[m], permits);
    }
  }

  ghost function InFlight(s: State): set<RequestId> {
    set r | r in s.requests && s.requests[r].stage == Transcoding
  }

  /** Whatever happens: never more transcodes than permits, never two on one lock, never a
      half-written file under a final name, and no publication lost count of. */
  lemma ReachableIsSafe(names: Names, permits: nat, s: State)
    requires Reachable(names, permits, s)
    ensures |InFlight(s)| + s.others + s.free <= permits
    ensures forall q, r :: q in InFlight(s) && r in InFlight(s) && s.requests[q].lock == s.requests[r].lock ==> q == r
    ensures FilesAccounted(s)
  {
    var ss: seq<State>, actions: seq<Action> :| IsRun(names, permits, ss, actions) && s == ss[|actions|];
    RunKeeps(names, permits, ss, actions, |actions|);
    SubsetIsSmaller(InFlight(s), PermitHolders(s));
  }

  // ---- single flight ----------------------------------------------------------

  /** At most one transcode per rendition. */
  ghost predicate SingleFlight(s: State) {
    forall q, r :: q in InFlight(s) && r in InFlight(s) && s.requests[q].key == s.requests[r].key ==> q == r
  }

  /** While the registry has never been emptied, every request holds the registered lock,
      and a transcode only runs for a file that is not there. */
  ghost predicate Registered(s: State) {
    forall r :: r in s.requests ==> s.requests[r].key in s.registry && s.registry[s.requests[r].key] == s.requests[r].lock
  }

  ghost predicate NothingWasted(s: State) {
    && s.overwritten == multiset{}
    && forall r :: r in s.requests && s.requests[r].stage == Transcoding ==> s.requests[r].key !in s.visible
  }

  lemma StepKeepsRegistered(s: State, a: Action)
    requires Registered(s) && Enabled(s, a)
    requires LooksUp(a) ==> |s.registry| <= REGISTRY_CAP
    ensures Registered(Do(s, a))
  {
    if !LooksUp(a) && !a.TakeLock? {
      OtherStepsTakeNoLock(s, a);
    }
  }

  lemma RegisteredIsSingleFlight(s: State)
    requires Registered(s) && LocksExclusive(s)
    ensures SingleFlight(s)
  {
  }

  lemma PublishWastesNothing(s: State, r: RequestId)
    requires Registered(s) && LocksExclusive(s) && NothingWasted(s) && Enabled(s, Publish(r))
    ensures NothingWasted(Do(s, Publish(r)))
  {
    var k := s.requests[r].key;
    assert forall q :: q in s.requests && s.requests[q].key == k ==> s.requests[q].lock == s.requests[r].lock;
  }

  lemma OtherStepsWasteNothing(s: State, a: Action)
    requires NothingWasted(s) && Enabled(s, a) && !a.Publish?
    ensures NothingWasted(Do(s, a))
  {
    match a
    case Recheck(r) =>
    case _ =>
  }

  lemma StepKeepsNothingWasted(s: State, a: Action)
    requires Registered(s) && LocksExclusive(s) && NothingWasted(s) && Enabled(s, a)
    ensures NothingWasted(Do(s, a))
  {
    if a.Publish? {
      PublishWastesNothing(s, a.r);
    } else {
      OtherStepsWasteNothing(s, a);
    }
  }

  lemma {:induction false} SingleFlightUntilCleared(names: Names, permits: nat, ss: seq<State>, actions: seq<Action>,
                                                    n: nat)
    requires IsRun(names, permits, ss, actions) && n <= |actions|
    requires forall i :: 0 <= i < n && LooksUp(actions[i]) ==> |ss[i].registry| <= REGISTRY_CAP
    ensures Registered(ss[n]) && NothingWasted(ss[n]) && SingleFlight(ss[n])
    ensures forall k :: ss[n].produced[k] == ss[n].evicted[k] + (if k in ss[n].visible then 1 else 0)
  {
    RunKeeps(names, permits, ss, actions, n);
    if n > 0 {
      SingleFlightUntilCleared(names, permits, ss, actions, n - 1);
      RunKeeps(names, permits, ss, actions, n - 1);
      StepKeepsRegistered(ss[n - 1], actions[n - 1]);
      StepKeepsNothingWasted(ss[n - 1], actions[n - 1]);
    }
    RegisteredIsSingleFlight(ss[n]);
  }

  lemma {:induction false} RegistryWithinKeys(names: Names, permits: nat, ss: seq<State>, actions: seq<Action>, n: nat)
    requires IsRun(names, permits, ss, actions) && n <= |actions|
    ensures ss[n].registry.Keys <= names.All()
  {
    if n > 0 {
      var m := n - 1;
      RegistryWithinKeys(names, permits, ss, actions, m);
      assert IsStep(names, ss[m], actions[m], ss[m + 1]);
    }
  }

  /** Few enough names, or a single permit: single flight in every reachable state. */
  lemma SingleFlightWhenSmall(names: Names, permits: nat, s: State)
    requires |names.All()| <= REGISTRY_CAP || permits <= 1
    requires Reachable(names, permits, s)
    ensures SingleFlight(s)
  {
    var ss: seq<State>, actions: seq<Action> :| IsRun(names, permits, ss, actions) && s == ss[|actions|];
    if permits <= 1 {
      ReachableIsSafe(names, permits, s);
      forall q, r | q in InFlight(s) && r in InFlight(s)
        ensures q == r
      {
        SubsetIsSmaller({q, r}, InFlight(s));
      }
    } else {
      forall i | 0 <= i < |actions| && LooksUp(actions[i])
        ensures |ss[i].registry| <= REGISTRY_CAP
      {
        RegistryWithinKeys(names, permits, ss, actions, i);
        SubsetIsSmaller(ss[i].registry.Keys, names.All());
      }
      SingleFlightUntilCleared(names, permits, ss, actions, |actions|);
    }
  }

  // ---- and otherwise it fails -------------------------------------------------

  lemma StepReaches(names: Names, permits: nat, s: State, a: Action)
    requires Reachable(names, permits, s) && Enabled(s, a) && (a.Arrive? ==> a.k in names.renditions)
          && (a.Thumbnail? ==> a.k in names.thumbnails)
    ensures Reachable(names, permits, Do(s, a))
  {
    var ss: seq<State>, actions: seq<Action> :| IsRun(names, permits, ss, actions) && s == ss[|actions|];
    RunGoesOn(names, permits, ss, actions, a, Do(s, a));
  }

  lemma RunGoesOn(names: Names, permits: nat, ss: seq<State>, actions: seq<Action>, a: Action, s': State)
    requires IsRun(names, permits, ss, actions) && IsStep(names, ss[|actions|], a, s')
    ensures IsRun(names, permits, ss + [s'], actions + [a])
  {
    var longer, more := ss + [s'], actions + [a];
    forall i | 0 <= i < |more|
      ensures IsStep(names, longer[i], more[i], longer[i + 1])
    {
      assert longer[i] == ss[i];
      assert i < |actions| ==> longer[i + 1] == ss[i + 1];
    }
  }

  /** From "waiting for the lock", with the lock free and the file absent, to ffmpeg. */
  lemma StartTranscode(names: Names, permits: nat, s: State, r: RequestId) returns (s': State)
    requires Reachable(names, permits, s) && Enabled(s, TakeLock(r))
    requires s.requests[r].key !in s.visible && s.free > 0
    ensures Reachable(names, permits, s')
    ensures s' == Moved(s, r, Transcoding).(temps := s.temps[r := Half], free := s.free - 1)
  {
    s' := s;
    StepReaches(names, permits, s', TakeLock(r));
    s' := Do(s', TakeLock(r));
    StepReaches(names, permits, s', CheckCache(r));
    s' := Do(s', CheckCache(r));
    StepReaches(names, permits, s', TakePermit(r));
    s' := Do(s', TakePermit(r));
    StepReaches(names, permits, s', Recheck(r));
    s' := Do(s', Recheck(r));
    assert s'.requests == Moved(s, r, Transcoding).requests;
  }

  /** Request 0 transcodes the first rendition; the other names have only been asked for. */
  ghost predicate Crowded(s: State, permits: nat, ks: seq<Key>, n: nat) {
    && 0 < n <= |ks|
    && |s.registry| == n && s.registry.Keys == (set i | 0 <= i < n :: ks[i])
    && 0 in s.requests && (forall r :: r in s.requests ==> r < n) && s.temps.Keys == {0}
    && s.requests[0].key == ks[0] && InFlight(s) == {0}
    && s.visible == map[] && s.free + 1 == permits
  }

  /** Asking for a name, as a rendition if it is one. */
  function AskFor(names: Names, k: Key, r: RequestId): Action {
    if k in names.renditions then Arrive(r, k) else Thumbnail(k)
  }

  lemma {:induction false} ReachCrowded(names: Names, permits: nat, ks: seq<Key>, n: nat) returns (s: State)
    requires permits >= 1 && Distinct(ks) && (forall k :: k in ks ==> k in names.All())
    requires 0 < n <= |ks| && n <= REGISTRY_CAP + 1 && ks[0] in names.renditions
    ensures Reachable(names, permits, s) && Crowded(s, permits, ks, n)
    decreases n
  {
    if n == 1 {
      var start := Init(permits);
      assert IsRun(names, permits, [start], []);
      StepReaches(names, permits, start, Arrive(0, ks[0]));
      var arrived := Do(start, Arrive(0, ks[0]));
      s := StartTranscode(names, permits, arrived, 0);
    } else {
      var before := ReachCrowded(names, permits, ks, n - 1);
      assert ks[n - 1] in ks && ks[n - 1] !in before.registry;
      var ask := AskFor(names, ks[n - 1], n - 1);
      StepReaches(names, permits, before, ask);
      s := Do(before, ask);
      CrowdGrows(before, permits, ks, n, ask);
    }
  }

  lemma CrowdGrows(before: State, permits: nat, ks: seq<Key>, n: nat, ask: Action)
    requires 1 < n <= |ks| && n <= REGISTRY_CAP + 1 && Crowded(before, permits, ks, n - 1)
    requires ks[n - 1] !in before.registry && Enabled(before, ask)
    requires ask == Arrive(n - 1, ks[n - 1]) || ask == Thumbnail(ks[n - 1])
    ensures Crowded(Do(before, ask), permits, ks, n)
  {
    var s := Do(before, ask);
    assert s.registry.Keys == before.registry.Keys + {ks[n - 1]};
    assert InFlight(s) == {0};
  }

  lemma {:induction false} Enumerate(keys: set<Key>, n: nat) returns (ks: seq<Key>)
    requires n <= |keys|
    ensures |ks| == n && Distinct(ks) && forall k :: k in ks ==> k in keys
    decreases n
  {
    ks := [];
    if n > 0 {
      var k :| k in keys;
      var rest := Enumerate(keys - {k}, n - 1);
      ks := [k] + rest;
    }
  }

  /** With one name too many, be it of a rendition or a thumbnail, and two permits there is a
      run that renders one file twice at once: the registry is emptied while the first
      transcode still runs, and the next request for the same file gets a lock of its own. */
  lemma SingleFlightFails(names: Names, permits: nat) returns (s: State)
    requires names.renditions != {} && |names.All()| > REGISTRY_CAP && permits >= 2
    ensures Reachable(names, permits, s) && !SingleFlight(s)
  {
    var n := REGISTRY_CAP + 1;
    var k :| k in names.renditions;
    var others := Enumerate(names.All() - {k}, n - 1);
    var ks := [k] + others;
    var crowded := ReachCrowded(names, permits, ks, n);
    LocksOf(names, permits, crowded);
    StepReaches(names, permits, crowded, Arrive(n, k));
    var again := Do(crowded, Arrive(n, k));
    assert again.requests[n] == Request(k, crowded.nextLock, Queued);
    s := StartTranscode(names, permits, again, n);
    assert 0 in InFlight(s) && n in InFlight(s) && s.requests[0].key == s.requests[n].key;
  }

  lemma LocksOf(names: Names, permits: nat, s: State)
    requires Reachable(names, permits, s)
    ensures LocksBounded(s)
  {
    var ss: seq<State>, actions: seq<Action> :| IsRun(names, permits, ss, actions) && s == ss[|actions|];
    RunKeeps(names, permits, ss, actions, |actions|);
  }

  lemma {:induction false} RequestsAreForRenditions(names: Names, permits: nat, ss: seq<State>, actions: seq<Action>,
                                                    n: nat)
    requires IsRun(names, permits, ss, actions) && n <= |actions|
    ensures forall r :: r in ss[n].requests ==> ss[n].requests[r].key in names.renditions
  {
    if n > 0 {
      var m := n - 1;
      RequestsAreForRenditions(names, permits, ss, actions, m);
      assert IsStep(names, ss[m], actions[m], ss[m + 1]);
      if !LooksUp(actions[m]) && !actions[m].TakeLock? {
        OtherStepsTakeNoLock(ss[m], actions[m]);
      }
    }
  }

  lemma SingleFlightHolds(names: Names, permits: nat, s: State)
    requires |names.All()| <= REGISTRY_CAP || permits <= 1 || names.renditions == {}
    requires Reachable(names, permits, s)
    ensures SingleFlight(s)
  {
    if names.renditions == {} {
      var ss: seq<State>, actions: seq<Action> :| IsRun(names, permits, ss, actions) && s == ss[|actions|];
      RequestsAreForRenditions(names, permits, ss, actions, |actions|);
    } else {
      SingleFlightWhenSmall(names, permits, s);
    }
  }

  /** Exactly when a rendition is never rendered twice at once: no more distinct renditions
      and thumbnails are ever asked for than the registry holds, or one transcode runs at a
      time anyway, or no rendition is asked for at all. */
  lemma SingleFlightExactly(names: Names, permits: nat)
    ensures (forall s :: Reachable(names, permits, s) ==> SingleFlight(s))
       <==> |names.All()| <= REGISTRY_CAP || permits <= 1 || names.renditions == {}
  {
    if |names.All()| <= REGISTRY_CAP || permits <= 1 || names.renditions == {} {
      forall s | Reachable(names, permits, s)
        ensures SingleFlight(s)
      {
        SingleFlightHolds(names, permits, s);
      }
    } else {
      var s := SingleFlightFails(names, permits);
    }
  }
}
