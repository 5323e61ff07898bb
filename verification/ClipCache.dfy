/** The cache of rendered motion clips, through changes of settings, renders and prunes. */
module ClipCache {
  import opened Basics
  import opened ClipNames
  import opened Options

  /** The settings, and for each cached file the window it was rendered over. */
  datatype State = State(preSecs: nat, overviewSecs: nat, files: map<string, Window>)

  datatype Op =
    | SetPreRoll(secs: int)
    | SetOverview(secs: int)
    | Get(id: string, quality: Quality, works: bool)   // whether a render would succeed
    | Evict(name: string)

  function Name(s: State, id: string, q: Quality): string {
    Filename(id, q, s.overviewSecs, s.preSecs)
  }

  /** The window a render under the current settings would cover. */
  function Fresh(s: State, c: MotionClip): Window {
    OverviewWindow(c.start, Some(c.end), s.preSecs, s.overviewSecs)
  }

  function Apply(s: State, op: Op): State {
    match op
    case SetPreRoll(secs) => s.(preSecs := Clamp(secs, 0, 9))
    case SetOverview(secs) => s.(overviewSecs := Clamp(secs, 10, 30))
    case Evict(name) => s.(files := s.files - {name})
    case Get(id, q, works) =>
      var c := ParseMotionId(id);
      if c.None? || Name(s, id, q) in s.files || !works then s
      else s.(files := s.files[Name(s, id, q) := Fresh(s, c.value)])
  }

  /** A setting takes the value that is sent, or the nearest one allowed: a pre-roll up to 9 s, an
      overview of 10 to 30 s. No file is touched. */
  lemma SettingsAreNearest(s: State, secs: int)
    ensures Apply(s, SetPreRoll(secs)) == s.(preSecs := if secs < 0 then 0 else if secs > 9 then 9 else secs)
    ensures Apply(s, SetOverview(secs)) == s.(overviewSecs := if secs < 10 then 10 else if secs > 30 then 30 else secs)
  {
  }

  /** The window of the file a request is answered with; `None` for a malformed id, or when
      the file is missing and cannot be rendered. */
  function Served(s: State, id: string, q: Quality, works: bool): Option<Window> {
    var t := Apply(s, Get(id, q, works));
    if ParseMotionId(id).Some? && Name(s, id, q) in t.files then Some(t.files[Name(s, id, q)]) else None
  }

  class Cache {
    var preSecs: nat
    var overviewSecs: nat
    var files: map<string, Window>

    function Current(): State
      reads this
    {
      State(preSecs, overviewSecs, files)
    }

    method SetPreRollSeconds(secs: int)
      modifies this`preSecs
      ensures Current() == Apply(old(Current()), SetPreRoll(secs))
    {
      preSecs := Clamp(secs, 0, 9);
    }

    method SetOverviewSeconds(secs: int)
      modifies this`overviewSecs
      ensures Current() == Apply(old(Current()), SetOverview(secs))
    {
      overviewSecs := Clamp(secs, 10, 30);
    }

    /** `works` says whether a render would succeed. */
    method GetClipMedia(id: string, q: Quality, works: bool) returns (w: Option<Window>)
      modifies this`files
      ensures Current() == Apply(old(Current()), Get(id, q, works)) && w == Served(old(Current()), id, q, works)
    {
      var c := ParseMotionId(id);
      if c.None? {
        return None;
      }
      var name := Filename(id, q, overviewSecs, preSecs);
      if name !in files {
        if !works {
          return None;
        }
        files := files[name := OverviewWindow(c.value.start, Some(c.value.end), preSecs, overviewSecs)];
      }
      return Some(files[name]);
    }

    method EvictFile(name: string)
      modifies this`files
      ensures Current() == Apply(old(Current()), Evict(name))
    {
      files := files - {name};
    }
  }

  // ---- runs -------------------------------------------------------------------

  function Run(s: State, ops: seq<Op>): State {
    if ops == [] then s else Apply(Run(s, ops[..|ops| - 1]), ops[|ops| - 1])
  }

  /** What a cached file stands for. */
  ghost predicate RenderedFor(name: string, w: Window, id: string, q: Quality, o: nat, p: nat) {
    && ParseMotionId(id).Some? && name == Filename(id, q, o, p)
    && w == OverviewWindow(ParseMotionId(id).value.start, Some(ParseMotionId(id).value.end), p, o)
  }

  ghost predicate HasOrigin(name: string, w: Window) {
    exists id, q, o: nat, p: nat :: RenderedFor(name, w, id, q, o, p)
  }

  ghost predicate Sound(s: State) {
    && s.preSecs <= 9 && 10 <= s.overviewSecs <= 30
    && forall name :: name in s.files ==> HasOrigin(name, s.files[name])
  }

  lemma FreshHasOrigin(s: State, id: string, q: Quality)
    requires ParseMotionId(id).Some?
    ensures HasOrigin(Name(s, id, q), Fresh(s, ParseMotionId(id).value))
  {
    assert RenderedFor(Name(s, id, q), Fresh(s, ParseMotionId(id).value), id, q, s.overviewSecs, s.preSecs);
  }

  lemma RenderKeepsSound(s: State, id: string, q: Quality)
    requires Sound(s) && ParseMotionId(id).Some?
    ensures Sound(s.(files := s.files[Name(s, id, q) := Fresh(s, ParseMotionId(id).value)]))
  {
    FreshHasOrigin(s, id, q);
  }

  lemma ApplyKeepsSound(s: State, op: Op)
    requires Sound(s)
    ensures Sound(Apply(s, op))
  {
    if op.Get? && op.works && ParseMotionId(op.id).Some? {
      RenderKeepsSound(s, op.id, op.quality);
    }
  }

  lemma {:induction false} RunIsSound(s: State, ops: seq<Op>)
    requires Sound(s)
    ensures Sound(Run(s, ops))
    decreases |ops|
  {
    if ops != [] {
      RunIsSound(s, ops[..|ops| - 1]);
      ApplyKeepsSound(Run(s, ops[..|ops| - 1]), ops[|ops| - 1]);
    }
  }

  /** Once its file has been evicted, every id is answered with a fresh window, or with nothing if
      that cannot be rendered. */
  lemma EvictedIsFresh(s: State, id: string, q: Quality, works: bool)
    requires ParseMotionId(id).Some?
    ensures var t := Apply(s, Evict(Name(s, id, q)));
            Served(t, id, q, works) == if works then Some(Fresh(s, ParseMotionId(id).value)) else None
  {
  }

  // ---- when the cache is right ------------------------------------------------

  function Abs(n: int): nat {
    if n < 0 then -n else n
  }

  /** Whether the opposite of the end changes the window under some settings. */
  predicate EndMatters(c: MotionClip) {
    8_000 - Abs(c.end) < c.start + 30_000 && Abs(c.end) + 8_000 > c.start - 9_000
  }

  /** An id that shares its file with a clip of another window. */
  predicate Confusable(id: string)
    requires ParseMotionId(id).Some?
  {
    Flippable(StartText(id)) || (Flippable(EndText(id)) && EndMatters(ParseMotionId(id).value))
  }

  /** Two ids that share a file name the same window, unless one of them is confusable. */
  lemma SharedWindow(id: string, id': string, preSecs: nat, overviewSecs: nat)
    requires ParseMotionId(id).Some? && ParseMotionId(id').Some? && Sanitize(id) == Sanitize(id')
    requires !Confusable(id) && preSecs <= 9 && overviewSecs <= 30
    ensures var c, c' := ParseMotionId(id).value, ParseMotionId(id').value;
            OverviewWindow(c.start, Some(c.end), preSecs, overviewSecs) ==
            OverviewWindow(c'.start, Some(c'.end), preSecs, overviewSecs)
  {
    SharedNameAgrees(id, id');
  }

  lemma HitIsFresh(s: State, id: string, q: Quality)
    requires Sound(s) && ParseMotionId(id).Some? && !Confusable(id) && Name(s, id, q) in s.files
    ensures s.files[Name(s, id, q)] == Fresh(s, ParseMotionId(id).value)
  {
    var name := Name(s, id, q);
    assert HasOrigin(name, s.files[name]);
    var id', q', o: nat, p: nat :| RenderedFor(name, s.files[name], id', q', o, p);
    FilenameDetermines(id, q, s.overviewSecs, s.preSecs, id', q', o, p);
    SharedWindow(id, id', s.preSecs, s.overviewSecs);
  }

  /** The answer is the fresh window, or nothing if the file is missing and cannot be rendered. */
  ghost predicate ServedFresh(s: State, id: string, q: Quality, works: bool)
    requires ParseMotionId(id).Some?
  {
    Served(s, id, q, works) ==
    if works || Name(s, id, q) in s.files then Some(Fresh(s, ParseMotionId(id).value)) else None
  }

  lemma ServedIsFresh(s: State, ops: seq<Op>, id: string, q: Quality, works: bool)
    requires Sound(s) && ParseMotionId(id).Some? && !Confusable(id)
    ensures ServedFresh(Run(s, ops), id, q, works)
  {
    RunIsSound(s, ops);
    var t := Run(s, ops);
    if Name(t, id, q) in t.files {
      HitIsFresh(t, id, q);
    }
  }

  lemma SharedNameServesOther(s: State, id: string, id': string, q: Quality)
    requires ParseMotionId(id).Some? && ParseMotionId(id').Some?
    requires Name(s, id, q) == Name(s, id', q) && s.files == map[]
    ensures Served(Run(s, [Get(id', q, true)]), id, q, true) == Some(Fresh(s, ParseMotionId(id').value))
    ensures Fresh(Run(s, [Get(id', q, true)]), ParseMotionId(id).value) == Fresh(s, ParseMotionId(id).value)
  {
    var ops := [Get(id', q, true)];
    assert ops[..0] == [];
    assert Run(s, ops) == Apply(s, ops[0]);
  }

  lemma WindowsDiffer(c: MotionClip, c': MotionClip, preSecs: nat)
    requires preSecs == if Abs(c.end) + 8_000 > c.start then 0 else 9
    requires c.start != c'.start || (c'.end == -c.end && c.end != 0 && EndMatters(c))
    ensures OverviewWindow(c.start, Some(c.end), preSecs, 30) != OverviewWindow(c'.start, Some(c'.end), preSecs, 30)
  {
  }

  /** Asked for after its twin, a confusable id is answered with the twin's window. */
  lemma TwinIsServed(id: string, q: Quality) returns (s: State, ops: seq<Op>)
    requires ParseMotionId(id).Some? && Confusable(id)
    ensures Sound(s) && s.files == map[] && !ServedFresh(Run(s, ops), id, q, true)
  {
    var c := ParseMotionId(id).value;
    var twin := FlippedTwin(id, Flippable(StartText(id)));
    s := State(if Abs(c.end) + 8_000 > c.start then 0 else 9, 30, map[]);
    ops := [Get(twin, q, true)];
    SharedNameServesOther(s, id, twin, q);
    WindowsDiffer(c, ParseMotionId(twin).value, s.preSecs);
  }

  ghost predicate AlwaysFresh(id: string, q: Quality)
    requires ParseMotionId(id).Some?
  {
    forall s: State, ops: seq<Op>, works: bool :: Sound(s) && s.files == map[] ==> ServedFresh(Run(s, ops), id, q, works)
  }

  /** From an empty cache, through every run of settings changes, requests and evictions, an
      accepted id is answered with the window a fresh render would cover, exactly if neither
      instant is written with a sign, is not zero, and matters to the window. */
  lemma AlwaysFreshExactly(id: string, q: Quality)
    requires ParseMotionId(id).Some?
    ensures AlwaysFresh(id, q) <==> !Confusable(id)
  {
    if Confusable(id) {
      var s, ops := TwinIsServed(id, q);
    } else {
      forall s: State, ops: seq<Op>, works: bool | Sound(s) && s.files == map[]
        ensures ServedFresh(Run(s, ops), id, q, works)
      {
        ServedIsFresh(s, ops, id, q, works);
      }
    }
  }

  /** Every clip the feed prints for an event since 1970 is served right, whatever other ids
      are asked for. */
  lemma FeedClipsAreServedFresh(s: State, ops: seq<Op>, c: MotionClip, q: Quality)
    requires Sound(s) && Plausible(c) && 0 <= c.start && 0 <= c.end
    ensures Served(Run(s, ops), MotionId(c), q, true) == Some(Fresh(Run(s, ops), c))
  {
    ParsePrintedId(c);
    ServedIsFresh(s, ops, MotionId(c), q, true);
  }
}
