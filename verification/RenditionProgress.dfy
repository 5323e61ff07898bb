/** That a request for a rendition gets somewhere: what one request does when nothing is in its
    way, and that requests never block each other for good. */
module RenditionProgress {
  import opened Singleflight

  lemma FinishTranscode(names: Names, permits: nat, s: State, r: RequestId) returns (s': State)
    requires Reachable(names, permits, s) && At(s, r, Transcoding) && r in s.temps
    requires s.requests[r].key !in s.visible
    ensures Reachable(names, permits, s')
    ensures var k := s.requests[r].key;
      s' == s.(requests := s.requests - {r}, free := s.free + 1, temps := s.temps - {r},
               visible := s.visible[k := Whole], produced := s.produced + multiset{k})
  {
    StepReaches(names, permits, s, Encoded(r));
    s' := Do(s, Encoded(r));
    StepReaches(names, permits, s', Publish(r));
    s' := Do(s', Publish(r));
    StepReaches(names, permits, s', Leave(r));
    s' := Do(s', Leave(r));
    assert s'.requests == s.requests - {r} && s'.temps == s.temps - {r};
  }

  /** A request that can take its lock, for a file that is not there, with a permit free: it can
      render the file, which is then visible as a whole and counted once, and give the permit
      and the lock back. */
  lemma RequestRenders(names: Names, permits: nat, s: State, r: RequestId) returns (s': State)
    requires Reachable(names, permits, s) && Enabled(s, TakeLock(r))
    requires s.requests[r].key !in s.visible && s.free > 0
    ensures Reachable(names, permits, s')
    ensures var k := s.requests[r].key;
      && s'.visible == s.visible[k := Whole] && s'.produced == s.produced + multiset{k}
      && s'.overwritten == s.overwritten && s'.evicted == s.evicted
      && s'.requests == s.requests - {r} && s'.free == s.free && s'.temps == s.temps - {r}
  {
    var started := StartTranscode(names, permits, s, r);
    s' := FinishTranscode(names, permits, started, r);
    assert s'.requests == s.requests - {r} && s'.temps == s.temps - {r};
  }

  /** For a file that is there it is answered without a permit, and nothing is rendered. */
  lemma RequestIsServed(names: Names, permits: nat, s: State, r: RequestId) returns (s': State)
    requires Reachable(names, permits, s) && Enabled(s, TakeLock(r)) && s.requests[r].key in s.visible
    ensures Reachable(names, permits, s') && s' == s.(requests := s.requests - {r})
  {
    StepReaches(names, permits, s, TakeLock(r));
    s' := Do(s, TakeLock(r));
    StepReaches(names, permits, s', CheckCache(r));
    s' := Do(s', CheckCache(r));
    assert s'.requests == s.requests - {r};
  }

  // ---- no deadlock ------------------------------------------------------------

  /** ffmpeg runs only on a partial file of its own. */
  ghost predicate TranscodesHaveFiles(s: State) {
    forall r :: At(s, r, Transcoding) ==> r in s.temps
  }

  lemma MoveKeepsFilesOfTranscodes(s: State, a: Action)
    requires TranscodesHaveFiles(s) && Enabled(s, a) && (a.TakeLock? || a.CheckCache? || a.TakePermit? || a.Leave?)
    ensures TranscodesHaveFiles(Do(s, a))
  {
    forall q | At(Do(s, a), q, Transcoding)
      ensures q in Do(s, a).temps
    {
      assert At(s, q, Transcoding);
    }
  }

  lemma WorkKeepsFilesOfTranscodes(s: State, a: Action)
    requires TranscodesHaveFiles(s) && Enabled(s, a) && (a.Recheck? || a.Encoded? || a.Publish?)
    ensures TranscodesHaveFiles(Do(s, a))
  {
    forall q | At(Do(s, a), q, Transcoding)
      ensures q in Do(s, a).temps
    {
      assert q != a.r ==> At(s, q, Transcoding);
    }
  }

  lemma StepKeepsFilesOfTranscodes(s: State, a: Action)
    requires TranscodesHaveFiles(s) && Enabled(s, a)
    ensures TranscodesHaveFiles(Do(s, a))
  {
    if a.TakeLock? || a.CheckCache? || a.TakePermit? || a.Leave? {
      MoveKeepsFilesOfTranscodes(s, a);
    } else if a.Recheck? || a.Encoded? || a.Publish? {
      WorkKeepsFilesOfTranscodes(s, a);
    } else {
      forall q | At(Do(s, a), q, Transcoding)
        ensures q in Do(s, a).temps
      {
        assert At(s, q, Transcoding);
      }
    }
  }

  lemma {:induction false} RunKeepsFilesOfTranscodes(names: Names, permits: nat, ss: seq<State>, actions: seq<Action>,
                                                     n: nat)
    requires IsRun(names, permits, ss, actions) && n <= |actions|
    ensures TranscodesHaveFiles(ss[n])
  {
    if n > 0 {
      RunKeepsFilesOfTranscodes(names, permits, ss, actions, n - 1);
      var m := n - 1;
      assert IsStep(names, ss[m], actions[m], ss[m + 1]);
      StepKeepsFilesOfTranscodes(ss[m], actions[m]);
    }
  }

  /** The next step of a request on its way, failures and disconnects aside. */
  predicate IsAdvance(s: State, a: Action, r: RequestId)
    requires r in s.requests
  {
    match s.requests[r].stage
    case Queued => a == TakeLock(r)
    case Checking => a == CheckCache(r)
    case AwaitingPermit => a == TakePermit(r)
    case Rechecking => a == Recheck(r)
    case Transcoding => a == Encoded(r) || a == Publish(r)
    case Pruning => a == Leave(r)
  }

  ghost predicate CanAdvance(s: State, r: RequestId) {
    r in s.requests && exists a :: IsAdvance(s, a, r) && Enabled(s, a)
  }

  lemma BusyCanAdvance(s: State, r: RequestId)
    requires TranscodesHaveFiles(s) && r in s.requests && HoldsLock(s.requests[r])
    requires s.requests[r].stage == AwaitingPermit ==> s.free > 0
    ensures CanAdvance(s, r)
  {
    match s.requests[r].stage
    case Checking => assert IsAdvance(s, CheckCache(r), r);
    case AwaitingPermit => assert IsAdvance(s, TakePermit(r), r);
    case Rechecking => assert IsAdvance(s, Recheck(r), r);
    case Transcoding => assert At(s, r, Transcoding) && IsAdvance(s, Encoded(r), r);
    case Pruning => assert IsAdvance(s, Leave(r), r);
  }

  lemma IdleCanAdvance(s: State, r: RequestId)
    requires r in s.requests && forall q :: q in s.requests ==> !HoldsLock(s.requests[q])
    ensures CanAdvance(s, r)
  {
    assert IsAdvance(s, TakeLock(r), r);
  }

  /** Requests never wait for each other in a circle: in every reachable state in which the other
      users of the permits leave one at least, some request can take its next step. */
  lemma NeverStuck(names: Names, permits: nat, s: State)
    requires Reachable(names, permits, s) && s.requests != map[] && s.others < permits
    ensures exists r :: CanAdvance(s, r)
  {
    var ss: seq<State>, actions: seq<Action> :| IsRun(names, permits, ss, actions) && s == ss[|actions|];
    RunKeeps(names, permits, ss, actions, |actions|);
    RunKeepsFilesOfTranscodes(names, permits, ss, actions, |actions|);
    if holder :| holder in PermitHolders(s) {
      BusyCanAdvance(s, holder);
    } else {
      assert PermitHolders(s) == {};
      if busy :| busy in s.requests && HoldsLock(s.requests[busy]) {
        BusyCanAdvance(s, busy);
      } else {
        var r :| r in s.requests;
        IdleCanAdvance(s, r);
      }
    }
  }
}
