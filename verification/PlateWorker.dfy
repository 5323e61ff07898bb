/** The plate worker's loop over the analysed frames: presence tracking, voting and
    emission at the end of a pass. Instants are real seconds of the monotonic clock. */
module PlateWorker {
  import opened Options
  import opened PassVotes
  import opened Polygons

  datatype Config = Config(passGap: real, passMax: real, reappearGap: real)

  /** The best plate the models found in a frame. */
  datatype Reading = Reading(plate: string, conf: real, centre: Point, snapshot: nat)

  /** An analysed frame: when it was grabbed, the clocks at the vote, whether it moved, what
      was read, and the settings in force. */
  datatype Frame = Frame(
    now: real, clock: real, wall: real, motion: bool, got: Option<Reading>, minConf: real, zones: Zones)

  datatype Emission = Emission(plate: string, conf: real, best: Option<Read>)

  /** What "never seen" stands for in the presence check. */
  const NEVER := -1000000000.0

  // ---- one frame --------------------------------------------------------------

  datatype Track = Track(
    lastRead: map<string, real>, passNew: set<string>, lastMotion: real, seen: seq<Read>, started: real)

  const START := Track(map[], {}, 0.0, [], 0.0)

  ghost predicate Accepted(f: Frame) {
    f.motion && f.got.Some? && f.got.value.conf >= f.minConf && Allowed(f.zones, f.got.value.centre)
  }

  predicate Absent(cfg: Config, last: Option<real>, now: real) {
    now - (if last.Some? then last.value else NEVER) > cfg.reappearGap
  }

  function LookUp(m: map<string, real>, p: string): Option<real> {
    if p in m then Some(m[p]) else None
  }

  function See(cfg: Config, t: Track, f: Frame): Track
    requires f.got.Some?
  {
    var r := f.got.value;
    t.(passNew := if Absent(cfg, LookUp(t.lastRead, r.plate), f.now) then t.passNew + {r.plate} else t.passNew,
       lastRead := t.lastRead[r.plate := f.now],
       seen := t.seen + [Read(r.plate, r.conf, r.snapshot, f.wall)],
       started := if t.seen == [] then f.clock else t.started)
  }

  ghost function Watch(cfg: Config, t: Track, f: Frame): Track {
    var m := if f.motion then t.(lastMotion := f.now) else t;
    if Accepted(f) then See(cfg, m, f) else m
  }

  predicate PassOver(cfg: Config, t: Track, now: real) {
    t.seen != [] && (now - t.lastMotion >= cfg.passGap || now - t.started >= cfg.passMax)
  }

  /** Plates unseen for longer than the gap are forgotten. */
  function Pruned(cfg: Config, lastRead: map<string, real>, now: real): map<string, real> {
    map p | p in lastRead && now - lastRead[p] <= cfg.reappearGap :: lastRead[p]
  }

  /** The winner of the pass, if it arrived during the pass. */
  ghost function Announced(t: Track): Option<Emission>
    requires t.seen != []
  {
    PlatesAreThoseRead(t.seen);
    LeaderIsRead(Plates(t.seen), t.seen);
    var w := Leader(Plates(t.seen), t.seen);
    if w in t.passNew then Some(Emission(w, Sum(t.seen, w) / Count(t.seen, w) as real, Best(t.seen))) else None
  }

  /** The loop body; `prune` says whether old presences are forgotten at the end of a pass. */
  ghost function Step(cfg: Config, prune: bool, t: Track, f: Frame): (Track, Option<Emission>) {
    var w := Watch(cfg, t, f);
    if PassOver(cfg, w, f.now) then
      (Track(if prune then Pruned(cfg, w.lastRead, f.now) else w.lastRead, {}, w.lastMotion, [], 0.0), Announced(w))
    else (w, None)
  }

  class Worker {
    const cfg: Config
    var lastRead: map<string, real>
    var passNew: set<string>
    var lastMotion: real
    const vote: PassVote

    ghost predicate Valid()
      reads this, vote
    {
      vote.Valid()
    }

    ghost function State(): Track
      reads this, vote
    {
      Track(lastRead, passNew, lastMotion, vote.seen, vote.started)
    }

    constructor (cfg: Config)
      ensures Valid() && State() == START && this.cfg == cfg && fresh(vote)
    {
      this.cfg := cfg;
      lastRead, passNew, lastMotion := map[], {}, 0.0;
      vote := new PassVote();
    }

    method NoteMotion(f: Frame)
      requires Valid()
      modifies this, vote
      ensures Valid() && State() == Watch(cfg, old(State()), f)
    {
      if f.motion {
        lastMotion := f.now;
        if f.got.Some? && f.got.value.conf >= f.minConf {
          var r := f.got.value;
          var inside := InZones(r.centre, f.zones);
          if inside {
            if f.now - (if r.plate in lastRead then lastRead[r.plate] else NEVER) > cfg.reappearGap {
              passNew := passNew + {r.plate};
            }
            lastRead := lastRead[r.plate := f.now];
            vote.Add(r.plate, r.conf, r.snapshot, f.clock, f.wall);
          }
        }
      }
    }

    method ProcessFrame(f: Frame) returns (posted: Option<Emission>)
      requires Valid()
      modifies this, vote
      ensures Valid() && (State(), posted) == Step(cfg, true, old(State()), f)
    {
      posted := None;
      NoteMotion(f);
      var active := vote.Active();
      if active && (f.now - lastMotion >= cfg.passGap || f.now - vote.started >= cfg.passMax) {
        var w := vote.Winner();
        if w.Some? && w.value.0 in passNew {
          posted := Some(Emission(w.value.0, w.value.1, vote.best));
        }
        vote.Reset();
        passNew := {};
        lastRead := map p | p in lastRead && f.now - lastRead[p] <= cfg.reappearGap :: lastRead[p];
      }
    }
  }

  // ---- whole runs -------------------------------------------------------------

  ghost function After(cfg: Config, prune: bool, frames: seq<Frame>): Track {
    if frames == [] then START
    else Step(cfg, prune, After(cfg, prune, frames[..|frames| - 1]), frames[|frames| - 1]).0
  }

  /** What the last frame of the run makes the worker post. */
  ghost function Posted(cfg: Config, prune: bool, frames: seq<Frame>): Option<Emission> {
    if frames == [] then None
    else Step(cfg, prune, After(cfg, prune, frames[..|frames| - 1]), frames[|frames| - 1]).1
  }

  /** The monotonic clock never runs back, and starts at zero or later. */
  ghost predicate Clocked(frames: seq<Frame>) {
    && (forall i :: 0 <= i < |frames| ==> frames[i].now >= 0.0)
    && forall i, j :: 0 <= i < j < |frames| ==> frames[i].now <= frames[j].now
  }

  ghost predicate Sights(f: Frame, p: string) {
    Accepted(f) && f.got.value.plate == p
  }

  /** When `p` was last sighted, over the whole history. */
  ghost function LastSeen(frames: seq<Frame>, p: string): Option<real> {
    if frames == [] then None
    else if Sights(frames[|frames| - 1], p) then Some(frames[|frames| - 1].now)
    else LastSeen(frames[..|frames| - 1], p)
  }

  /** The last frame sights `p` after an absence longer than the reappear gap. */
  ghost predicate Arrives(cfg: Config, frames: seq<Frame>, p: string) {
    && frames != [] && Sights(frames[|frames| - 1], p)
    && match LastSeen(frames[..|frames| - 1], p)
       case Some(last) => frames[|frames| - 1].now - last > cfg.reappearGap
       case None => frames[|frames| - 1].now + 1000000000.0 > cfg.reappearGap
  }

  ghost function Arrivals(cfg: Config, frames: seq<Frame>, p: string): nat {
    if frames == [] then 0
    else Arrivals(cfg, frames[..|frames| - 1], p) + if Arrives(cfg, frames, p) then 1 else 0
  }

  ghost function Posts(cfg: Config, frames: seq<Frame>, p: string): nat {
    if frames == [] then 0
    else
      var e := Posted(cfg, true, frames);
      Posts(cfg, frames[..|frames| - 1], p) + if e.Some? && e.value.plate == p then 1 else 0
  }

  /** What is remembered agrees with the history; what is forgotten has long been gone. */
  ghost predicate Remembers(cfg: Config, t: Track, frames: seq<Frame>, p: string) {
    if p in t.lastRead then LastSeen(frames, p) == Some(t.lastRead[p])
    else LastSeen(frames, p).Some? ==>
      frames != [] && LastSeen(frames, p).value >= 0.0
      && frames[|frames| - 1].now - LastSeen(frames, p).value > cfg.reappearGap
  }

  /** So the presence check answers as if nothing had ever been forgotten. */
  lemma SameAnswer(cfg: Config, t: Track, frames: seq<Frame>, f: Frame, p: string)
    requires Clocked(frames + [f]) && Remembers(cfg, t, frames, p)
    ensures Absent(cfg, LookUp(t.lastRead, p), f.now) <==> Absent(cfg, LastSeen(frames, p), f.now)
  {
    var all := frames + [f];
    assert all[|frames|] == f;
    if frames != [] {
      assert all[|frames| - 1] == frames[|frames| - 1];
      assert frames[|frames| - 1].now <= f.now;
    }
  }

  lemma RunFront(frames: seq<Frame>, f: Frame)
    requires Clocked(frames + [f])
    ensures Clocked(frames) && f.now >= 0.0
    ensures frames != [] ==> frames[|frames| - 1].now <= f.now
    ensures (frames + [f])[..|frames|] == frames && (frames + [f])[|frames|] == f
  {
    var all := frames + [f];
    assert forall i :: 0 <= i < |frames| ==> frames[i] == all[i];
    assert all[|frames|] == f;
  }

  lemma {:induction false} LastSeenIsSane(frames: seq<Frame>, p: string)
    requires Clocked(frames)
    ensures LastSeen(frames, p).Some? ==> LastSeen(frames, p).value >= 0.0 && frames != []
    decreases |frames|
  {
    if frames != [] {
      var front, f := frames[..|frames| - 1], frames[|frames| - 1];
      assert frames == front + [f];
      RunFront(front, f);
      LastSeenIsSane(front, p);
      assert LastSeen(frames, p) == Some(f.now) || LastSeen(frames, p) == LastSeen(front, p);
    }
  }

  lemma PruneRemembers(cfg: Config, t: Track, frames: seq<Frame>, p: string)
    requires Clocked(frames) && frames != [] && Remembers(cfg, t, frames, p)
    ensures Remembers(cfg, t.(lastRead := Pruned(cfg, t.lastRead, frames[|frames| - 1].now)), frames, p)
  {
    LastSeenIsSane(frames, p);
  }

  lemma StepRemembers(cfg: Config, prune: bool, t: Track, frames: seq<Frame>, f: Frame, p: string)
    requires Clocked(frames + [f]) && Remembers(cfg, t, frames, p)
    ensures Remembers(cfg, Step(cfg, prune, t, f).0, frames + [f], p)
  {
    PruneRemembers(cfg, Watch(cfg, t, f), frames + [f], p);
  }

  lemma {:induction false} RunRemembers(cfg: Config, prune: bool, frames: seq<Frame>, p: string)
    requires Clocked(frames)
    ensures Remembers(cfg, After(cfg, prune, frames), frames, p)
    decreases |frames|
  {
    if frames != [] {
      var front, f := frames[..|frames| - 1], frames[|frames| - 1];
      assert frames == front + [f];
      RunFront(front, f);
      RunRemembers(cfg, prune, front, p);
      StepRemembers(cfg, prune, After(cfg, prune, front), front, f, p);
    }
  }

  /** Forgetting old presences is invisible: the worker that does and the one that never
      does agree, at every frame, on the arrivals of the pass, on the votes and on what
      they post. */
  lemma {:induction false} PruningIsInvisible(cfg: Config, frames: seq<Frame>)
    requires Clocked(frames)
    ensures After(cfg, true, frames).(lastRead := map[]) == After(cfg, false, frames).(lastRead := map[])
    ensures Posted(cfg, true, frames) == Posted(cfg, false, frames)
    decreases |frames|
  {
    if frames != [] {
      var front, f := frames[..|frames| - 1], frames[|frames| - 1];
      assert frames == front + [f];
      RunFront(front, f);
      PruningIsInvisible(cfg, front);
      var t, u := After(cfg, true, front), After(cfg, false, front);
      if f.got.Some? {
        RunRemembers(cfg, true, front, f.got.value.plate);
        RunRemembers(cfg, false, front, f.got.value.plate);
      }
      SameWatch(cfg, t, u, front, f);
      SamePost(cfg, Watch(cfg, t, f), Watch(cfg, u, f), f.now);
    }
  }

  lemma SameWatch(cfg: Config, t: Track, u: Track, frames: seq<Frame>, f: Frame)
    requires Clocked(frames + [f]) && t.(lastRead := map[]) == u.(lastRead := map[])
    requires f.got.Some? ==> Remembers(cfg, t, frames, f.got.value.plate) && Remembers(cfg, u, frames, f.got.value.plate)
    ensures Watch(cfg, t, f).(lastRead := map[]) == Watch(cfg, u, f).(lastRead := map[])
  {
    if f.got.Some? {
      SameAnswer(cfg, t, frames, f, f.got.value.plate);
      SameAnswer(cfg, u, frames, f, f.got.value.plate);
    }
  }

  lemma SamePost(cfg: Config, t: Track, u: Track, now: real)
    requires t.(lastRead := map[]) == u.(lastRead := map[])
    ensures PassOver(cfg, t, now) <==> PassOver(cfg, u, now)
    ensures t.seen != [] ==> Announced(t) == Announced(u)
  {
  }

  ghost predicate NewAreRead(t: Track) {
    forall p :: p in t.passNew ==> Count(t.seen, p) > 0
  }

  /** Only plates voted on can be waiting to be announced. */
  lemma {:induction false} NewPlatesWereRead(cfg: Config, prune: bool, frames: seq<Frame>)
    ensures NewAreRead(After(cfg, prune, frames))
    decreases |frames|
  {
    if frames != [] {
      NewPlatesWereRead(cfg, prune, frames[..|frames| - 1]);
    }
  }

  predicate Pending(t: Track, p: string) {
    p in t.passNew
  }

  lemma OneFrameIsPaidFor(cfg: Config, front: seq<Frame>, f: Frame, p: string)
    requires Clocked(front + [f])
    ensures var frames := front + [f];
            (if Posted(cfg, true, frames).Some? && Posted(cfg, true, frames).value.plate == p then 1 else 0)
            + (if Pending(After(cfg, true, frames), p) then 1 else 0)
            <= (if Pending(After(cfg, true, front), p) then 1 else 0) + (if Arrives(cfg, frames, p) then 1 else 0)
  {
    var t := After(cfg, true, front);
    RunFront(front, f);
    RunRemembers(cfg, true, front, p);
  }

  /** Every post of a plate is paid for by an arrival of its own: the arrival puts the plate
      into the pass, and the end of the pass takes it out. */
  lemma {:induction false} PostsArePaidFor(cfg: Config, frames: seq<Frame>, p: string)
    requires Clocked(frames)
    ensures Posts(cfg, frames, p) + (if Pending(After(cfg, true, frames), p) then 1 else 0) <= Arrivals(cfg, frames, p)
    decreases |frames|
  {
    if frames != [] {
      var front, f := frames[..|frames| - 1], frames[|frames| - 1];
      assert frames == front + [f];
      RunFront(front, f);
      PostsArePaidFor(cfg, front, p);
      OneFrameIsPaidFor(cfg, front, f, p);
    }
  }

  /** No absence of `p` longer than the gap between two of its sightings. */
  ghost predicate SeenContinuously(cfg: Config, frames: seq<Frame>, p: string) {
    forall n :: 0 <= n < |frames| && Sights(frames[n], p) && LastSeen(frames[..n], p).Some? ==>
      frames[n].now - LastSeen(frames[..n], p).value <= cfg.reappearGap
  }

  lemma {:induction false} OneArrival(cfg: Config, frames: seq<Frame>, p: string)
    requires SeenContinuously(cfg, frames, p)
    ensures Arrivals(cfg, frames, p) <= if LastSeen(frames, p).Some? then 1 else 0
    decreases |frames|
  {
    if frames != [] {
      var front := frames[..|frames| - 1];
      forall n | 0 <= n < |front| && Sights(front[n], p) && LastSeen(front[..n], p).Some?
        ensures front[n].now - LastSeen(front[..n], p).value <= cfg.reappearGap
      {
        assert front[n] == frames[n] && front[..n] == frames[..n];
      }
      OneArrival(cfg, front, p);
    }
  }

  /** A plate seen continuously, such as a parked car's, is posted at most once. */
  lemma ParkedCarPostsOnce(cfg: Config, frames: seq<Frame>, p: string)
    requires Clocked(frames) && SeenContinuously(cfg, frames, p)
    ensures Posts(cfg, frames, p) <= 1
  {
    PostsArePaidFor(cfg, frames, p);
    OneArrival(cfg, frames, p);
  }

  /** A read counts exactly if its frame moved, its confidence is not below the least, and its
      centre is in the allowed region. */
  lemma AcceptedExactly(now: real, clock: real, wall: real, motion: bool, r: Reading, minConf: real, zones: Zones)
    ensures Accepted(Frame(now, clock, wall, motion, Some(r), minConf, zones)) <==>
      motion && !(r.conf < minConf) && Allowed(zones, r.centre)
    ensures !Accepted(Frame(now, clock, wall, motion, None, minConf, zones))
  {
  }

  // ---- passes, over the frames alone ------------------------------------------

  /** When a frame last moved; zero if none has. */
  ghost function LastMotion(frames: seq<Frame>): real {
    if frames == [] then 0.0
    else if frames[|frames| - 1].motion then frames[|frames| - 1].now
    else LastMotion(frames[..|frames| - 1])
  }

  /** Frame `i` holds the first accepted read from frame `s` on. */
  ghost predicate FirstRead(frames: seq<Frame>, s: nat, i: int) {
    && s <= i < |frames| && Accepted(frames[i])
    && forall j :: s <= j < i ==> !Accepted(frames[j])
  }

  /** The last frame ends a pass: something has been read since the previous end, and either
      nothing has moved for the gap or the first of those reads is the maximum ago. */
  ghost predicate EndsPass(cfg: Config, frames: seq<Frame>)
    decreases |frames|, 0
  {
    && frames != []
    && var s, now := PassStart(cfg, frames[..|frames| - 1]), frames[|frames| - 1].now;
       exists i :: FirstRead(frames, s, i)
         && (now - LastMotion(frames) >= cfg.passGap || now - frames[i].clock >= cfg.passMax)
  }

  /** The frame after the last that ended a pass. */
  ghost function PassStart(cfg: Config, frames: seq<Frame>): (s: nat)
    ensures s <= |frames|
    decreases |frames|, 1
  {
    if frames == [] then 0
    else if EndsPass(cfg, frames) then |frames|
    else PassStart(cfg, frames[..|frames| - 1])
  }

  /** The accepted reads from frame `s` on. */
  ghost function ReadsFrom(frames: seq<Frame>, s: nat): seq<Read> {
    if |frames| <= s then []
    else
      var f := frames[|frames| - 1];
      ReadsFrom(frames[..|frames| - 1], s)
      + if Accepted(f) then [Read(f.got.value.plate, f.got.value.conf, f.got.value.snapshot, f.wall)] else []
  }

  /** At the end of a pass the plates still remembered are those sighted within the gap. */
  lemma ForgetsExactly(cfg: Config, frames: seq<Frame>, p: string)
    requires Clocked(frames) && EndsPass(cfg, frames)
    ensures p in After(cfg, true, frames).lastRead <==>
      LastSeen(frames, p).Some? && frames[|frames| - 1].now - LastSeen(frames, p).value <= cfg.reappearGap
  {
    var front, f := frames[..|frames| - 1], frames[|frames| - 1];
    assert frames == front + [f];
    RunFront(front, f);
    RunRemembers(cfg, true, frames, p);
    LastTracks(cfg, true, frames);
  }

  /** The reads of the pass that the last frame belongs to. */
  ghost function PassReads(cfg: Config, frames: seq<Frame>): seq<Read>
    requires frames != []
  {
    ReadsFrom(frames, PassStart(cfg, frames[..|frames| - 1]))
  }

  ghost predicate ArrivesAt(cfg: Config, frames: seq<Frame>, n: int, p: string) {
    0 <= n < |frames| && Arrives(cfg, frames[..n + 1], p)
  }

  /** Some frame from `s` on is an arrival of `p`. */
  ghost predicate ArrivedSince(cfg: Config, frames: seq<Frame>, s: nat, p: string) {
    exists n :: s <= n && ArrivesAt(cfg, frames, n, p)
  }

  /** The worker's state is the history of the pass that is going on. */
  ghost predicate Tracks(t: Track, frames: seq<Frame>, s: nat) {
    && t.lastMotion == LastMotion(frames) && t.seen == ReadsFrom(frames, s)
    && (forall i :: FirstRead(frames, s, i) ==> t.seen != [] && t.started == frames[i].clock)
    && (t.seen != [] ==> exists i :: FirstRead(frames, s, i))
  }

  lemma WatchTracks(cfg: Config, t: Track, frames: seq<Frame>, f: Frame, s: nat)
    requires Tracks(t, frames, s) && s <= |frames|
    ensures Tracks(Watch(cfg, t, f), frames + [f], s)
  {
    var all := frames + [f];
    assert all[..|frames|] == frames && all[|frames|] == f;
    forall i | FirstRead(all, s, i)
      ensures i < |frames| ==> FirstRead(frames, s, i)
    {
      assert forall j :: 0 <= j < |frames| ==> all[j] == frames[j];
    }
    if t.seen != [] {
      var i :| FirstRead(frames, s, i);
      assert forall j :: 0 <= j < |frames| ==> all[j] == frames[j];
      assert FirstRead(all, s, i);
    } else if Accepted(f) {
      NoReadNoFirst(frames, s);
      assert FirstRead(all, s, |frames|);
    }
  }

  lemma {:induction false} NoReadNoFirst(frames: seq<Frame>, s: nat)
    requires ReadsFrom(frames, s) == []
    ensures forall j :: s <= j < |frames| ==> !Accepted(frames[j])
    decreases |frames|
  {
    if |frames| > s {
      NoReadNoFirst(frames[..|frames| - 1], s);
    }
  }
  /** A pass ends exactly when its frames say so. */
  lemma OverIsEnd(cfg: Config, t: Track, frames: seq<Frame>)
    requires frames != [] && Tracks(t, frames, PassStart(cfg, frames[..|frames| - 1]))
    ensures PassOver(cfg, t, frames[|frames| - 1].now) <==> EndsPass(cfg, frames)
  {
  }

  lemma NothingSince(cfg: Config, t: Track, frames: seq<Frame>)
    requires t.seen == [] && t.lastMotion == LastMotion(frames)
    ensures Tracks(t, frames, |frames|)
  {
  }

  lemma {:induction false} RunTracks(cfg: Config, prune: bool, frames: seq<Frame>)
    ensures Tracks(After(cfg, prune, frames), frames, PassStart(cfg, frames))
    decreases |frames|
  {
    if frames != [] {
      var front, f := frames[..|frames| - 1], frames[|frames| - 1];
      assert frames == front + [f];
      RunTracks(cfg, prune, front);
      var w := Watch(cfg, After(cfg, prune, front), f);
      WatchTracks(cfg, After(cfg, prune, front), front, f, PassStart(cfg, front));
      OverIsEnd(cfg, w, frames);
      if EndsPass(cfg, frames) {
        NothingSince(cfg, After(cfg, prune, frames), frames);
      }
    }
  }

  /** The vote before the last frame ends or keeps the pass. */
  lemma LastTracks(cfg: Config, prune: bool, frames: seq<Frame>)
    requires frames != []
    ensures var w := Watch(cfg, After(cfg, prune, frames[..|frames| - 1]), frames[|frames| - 1]);
            w.seen == PassReads(cfg, frames) && (PassOver(cfg, w, frames[|frames| - 1].now) <==> EndsPass(cfg, frames))
  {
    var front, f := frames[..|frames| - 1], frames[|frames| - 1];
    assert frames == front + [f];
    RunTracks(cfg, prune, front);
    WatchTracks(cfg, After(cfg, prune, front), front, f, PassStart(cfg, front));
    OverIsEnd(cfg, Watch(cfg, After(cfg, prune, front), f), frames);
  }

  /** With a pass going on, begun by the read of frame `i`, the last frame ends it exactly if
      it comes the gap after the last motion or the maximum after that first read. */
  lemma PassEndsExactly(cfg: Config, prune: bool, frames: seq<Frame>, i: nat)
    requires frames != [] && FirstRead(frames, PassStart(cfg, frames[..|frames| - 1]), i)
    ensures var now := frames[|frames| - 1].now;
            After(cfg, prune, frames).seen == [] <==>
              now - LastMotion(frames) >= cfg.passGap || now - frames[i].clock >= cfg.passMax
  {
    RunTracks(cfg, prune, frames);
    if !EndsPass(cfg, frames) {
      assert FirstRead(frames, PassStart(cfg, frames), i);
    }
  }

  lemma WatchArrivals(cfg: Config, t: Track, frames: seq<Frame>, f: Frame, p: string)
    requires Clocked(frames + [f]) && Remembers(cfg, t, frames, p)
    ensures p in Watch(cfg, t, f).passNew <==> p in t.passNew || Arrives(cfg, frames + [f], p)
  {
    RunFront(frames, f);
    SameAnswer(cfg, t, frames, f, p);
  }

  lemma ArrivedOneMore(cfg: Config, frames: seq<Frame>, f: Frame, s: nat, p: string)
    requires s <= |frames|
    ensures ArrivedSince(cfg, frames + [f], s, p) <==> ArrivedSince(cfg, frames, s, p) || Arrives(cfg, frames + [f], p)
  {
    var all := frames + [f];
    forall n | 0 <= n < |frames|
      ensures ArrivesAt(cfg, all, n, p) <==> ArrivesAt(cfg, frames, n, p)
    {
      assert all[..n + 1] == frames[..n + 1];
    }
    assert all[..|frames| + 1] == all;
    assert ArrivesAt(cfg, all, |frames|, p) <==> Arrives(cfg, all, p);
  }

  /** The plates waiting to be announced are those that arrived in the pass going on. */
  lemma {:induction false} NewAreArrived(cfg: Config, prune: bool, frames: seq<Frame>, p: string)
    requires Clocked(frames)
    ensures p in After(cfg, prune, frames).passNew <==> ArrivedSince(cfg, frames, PassStart(cfg, frames), p)
    decreases |frames|
  {
    if frames != [] {
      var front, f := frames[..|frames| - 1], frames[|frames| - 1];
      assert frames == front + [f];
      RunFront(front, f);
      NewAreArrived(cfg, prune, front, p);
      RunRemembers(cfg, prune, front, p);
      WatchArrivals(cfg, After(cfg, prune, front), front, f, p);
      ArrivedOneMore(cfg, front, f, PassStart(cfg, front), p);
      LastTracks(cfg, prune, frames);
    }
  }

  /** A frame makes the worker post exactly if it ends a pass whose leading plate arrived in
      that pass. */
  lemma PostsExactly(cfg: Config, frames: seq<Frame>, k: nat)
    requires Clocked(frames) && frames != []
    requires var pass := PassReads(cfg, frames); pass != [] ==> Leads(Plates(pass), pass, k)
    ensures var pass := PassReads(cfg, frames);
            Posted(cfg, true, frames).Some? <==>
              && EndsPass(cfg, frames) && pass != []
              && ArrivedSince(cfg, frames, PassStart(cfg, frames[..|frames| - 1]), Plates(pass)[k])
  {
    var front, f, pass := frames[..|frames| - 1], frames[|frames| - 1], PassReads(cfg, frames);
    var t := After(cfg, true, front);
    assert frames == front + [f];
    RunFront(front, f);
    LastTracks(cfg, true, frames);
    if pass != [] {
      PlatesAreThoseRead(pass);
      var m := LeaderLeads(Plates(pass), pass);
      TopIsUnique(Plates(pass), SumOf(pass), k, m);
      var p := Plates(pass)[k];
      NewAreArrived(cfg, true, front, p);
      RunRemembers(cfg, true, front, p);
      WatchArrivals(cfg, t, front, f, p);
      ArrivedOneMore(cfg, front, f, PassStart(cfg, front), p);
    }
  }

  /** What is posted: the plate with the largest sum over the frames of its pass, none of the
      earlier read plates reaching it, with a confidence between the least and the greatest
      of its frames and the artefacts of the best frame of the whole pass. */
  lemma PostedIsTheWinner(cfg: Config, frames: seq<Frame>, lo: real, hi: real) returns (seen: seq<Read>, k: nat)
    requires Posted(cfg, true, frames).Some?
    ensures frames != [] && EndsPass(cfg, frames) && seen == PassReads(cfg, frames)
    ensures var e := Posted(cfg, true, frames).value;
            && Leads(Plates(seen), seen, k) && e.plate == Plates(seen)[k] && Count(seen, e.plate) > 0
            && e.best == Best(seen)
            && ((forall r :: r in seen && r.plate == e.plate ==> lo <= r.conf <= hi) ==> lo <= e.conf <= hi)
  {
    var e := Posted(cfg, true, frames).value;
    LastTracks(cfg, true, frames);
    seen := PassReads(cfg, frames);
    PlatesAreThoseRead(seen);
    k := LeaderLeads(Plates(seen), seen);
    assert e.plate in Plates(seen);
    if forall r :: r in seen && r.plate == e.plate ==> lo <= r.conf <= hi {
      MeanBetween(seen, e.plate, lo, hi);
    }
  }
}
