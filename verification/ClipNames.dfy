/** Clip ids, the window a clip is rendered over, and the file name it is cached under. */
module ClipNames {
  import opened Basics
  import opened Decimal
  import opened Options
  import opened Splitting

  type Millis = int

  const MAX_CLIP_MEDIA_MS := 30_000
  const POST_ROLL_MS := 8_000
  const WINDOW_SCHEME := 2

  datatype Window = Window(start: Millis, end: Millis)

  // ---- windows ----------------------------------------------------------------

  function Min(a: int, b: int): int {
    if a < b then a else b
  }

  function OverviewWindow(evStart: Millis, evEnd: Option<Millis>, preSecs: int, overviewSecs: int): Window {
    var winStart := evStart - preSecs * 1000;
    var hardCap := winStart + MAX_CLIP_MEDIA_MS;
    var wanted := winStart + overviewSecs * 1000;
    var closed := if evEnd.Some? then Min(wanted, evEnd.value + POST_ROLL_MS) else wanted;
    var capped := Min(closed, hardCap);
    Window(winStart, if capped < winStart then winStart else capped)
  }

  /** A window is never inverted nor longer than the ceiling, whatever the event and the
      settings; with settings in range it always holds the onset of an event that does not
      end before it starts. */
  lemma WindowIsBounded(evStart: Millis, evEnd: Option<Millis>, preSecs: int, overviewSecs: int)
    ensures var w := OverviewWindow(evStart, evEnd, preSecs, overviewSecs);
            && w.start <= w.end <= w.start + MAX_CLIP_MEDIA_MS
            && (0 <= preSecs <= 9 && 10 <= overviewSecs && (evEnd.Some? ==> evStart <= evEnd.value) ==>
                  w.start <= evStart < w.end)
  {
  }

  /** An instant is within the overview length and the 30 s ceiling of the pre-roll's start,
      and within 8 s of the end of an event that has ended. */
  predicate WithinReach(evStart: Millis, evEnd: Option<Millis>, preSecs: int, overviewSecs: int, x: Millis) {
    var length := x - (evStart - 1000 * preSecs);
    length <= 1000 * overviewSecs && length <= 30_000 && (evEnd.Some? ==> x - evEnd.value <= 8_000)
  }

  /** A window starts the pre-roll before the onset and reaches exactly as far as all three
      limits allow: of the instants after its start it holds those within reach. */
  lemma WindowIsExact(evStart: Millis, evEnd: Option<Millis>, preSecs: int, overviewSecs: int)
    ensures var w := OverviewWindow(evStart, evEnd, preSecs, overviewSecs);
            && w.start == evStart - 1000 * preSecs && w.start <= w.end
            && forall x :: x > w.start ==> (x <= w.end <==> WithinReach(evStart, evEnd, preSecs, overviewSecs, x))
  {
  }

  /** For a setting in range the window has the overview length exactly if the event is still
      going on or, with 8 s behind it, reaches that far; else it ends 8 s after the event, or
      where it starts if that is later. */
  lemma WindowLength(evStart: Millis, evEnd: Option<Millis>, preSecs: int, overviewSecs: int)
    requires 0 < overviewSecs <= 30
    ensures var w := OverviewWindow(evStart, evEnd, preSecs, overviewSecs);
            && (w.end - w.start == 1000 * overviewSecs <==>
                  evEnd.None? || evEnd.value + 8_000 >= w.start + 1000 * overviewSecs)
            && (w.end - w.start != 1000 * overviewSecs ==>
                  w.end == if evEnd.value + 8_000 < w.start then w.start else evEnd.value + 8_000)
  {
    WindowIsExact(evStart, evEnd, preSecs, overviewSecs);
  }

  // ---- ids of motion clips ----------------------------------------------------

  datatype MotionClip = MotionClip(camera: string, start: Millis, end: Millis)

  predicate IsHexDigit(c: char) {
    '0' <= c <= '9' || 'a' <= c <= 'f' || 'A' <= c <= 'F'
  }

  /** The hyphenated form of a UUID. */
  predicate IsUuid(s: string) {
    && |s| == 36
    && forall i :: 0 <= i < 36 ==> if i == 8 || i == 13 || i == 18 || i == 23 then s[i] == '-' else IsHexDigit(s[i])
  }

  function MotionId(c: MotionClip): string {
    "m:" + (c.camera + (":" + (PrintInt(c.start) + (":" + PrintInt(c.end)))))
  }

  const I64_LIMIT := 0x8000_0000_0000_0000

  predicate HasSign(s: string) {
    s != "" && (s[0] == '+' || s[0] == '-')
  }

  function Unsigned(s: string): string {
    if HasSign(s) then s[1..] else s
  }

  /** A 64-bit integer with an optional sign of either kind. */
  function ParseI64(s: string): Option<int> {
    var d := Unsigned(s);
    if d == "" || !AllDigits(d) then None
    else
      var n: int := if s[0] == '-' then 0 - Value(d) else Value(d);
      if -I64_LIMIT <= n < I64_LIMIT then Some(n) else None
  }

  /** Digits are read with or without a sign, as long as the number fits into 64 bits. */
  lemma DigitsAreRead(d: string)
    requires d != "" && AllDigits(d)
    ensures ParseI64(d) == ParseI64("+" + d) == if Value(d) <= 0x7fff_ffff_ffff_ffff then Some(Value(d)) else None
    ensures ParseI64("-" + d).Some? <==> Value(d) <= 0x8000_0000_0000_0000
    ensures ParseI64("-" + d).Some? ==> ParseI64("-" + d).value + Value(d) == 0
  {
    assert IsDigit(d[0]);
    assert ("+" + d)[1..] == d && ("-" + d)[1..] == d;
  }

  /** And nothing else is. */
  lemma OnlyDigitsAreRead(s: string)
    requires ParseI64(s).Some?
    ensures exists d :: d != "" && AllDigits(d) && (s == d || s == "+" + d || s == "-" + d)
  {
    if HasSign(s) {
      assert s == [s[0]] + s[1..];
    }
  }

  function Part(s: string): string {
    SplitOnce(s, ':').0
  }

  function Rest(s: string): Option<string> {
    SplitOnce(s, ':').1
  }

  /** The camera and the two instants a motion id names; further parts are ignored. */
  function ParseMotionId(id: string): Option<MotionClip> {
    if !("m:" <= id) then None
    else
      var r1 := Rest(id[2..]);
      if r1.None? || !IsUuid(Part(id[2..])) then None
      else
        var r2 := Rest(r1.value);
        if r2.None? then None
        else
          var s, e := ParseI64(Part(r1.value)), ParseI64(Part(r2.value));
          if s.None? || e.None? then None else Some(MotionClip(Part(id[2..]), s.value, e.value))
  }

  function StartText(id: string): string
    requires ParseMotionId(id).Some?
  {
    Part(Rest(id[2..]).value)
  }

  function EndText(id: string): string
    requires ParseMotionId(id).Some?
  {
    Part(Rest(Rest(id[2..]).value).value)
  }

  predicate Plausible(c: MotionClip) {
    IsUuid(c.camera) && -I64_LIMIT < c.start < I64_LIMIT && -I64_LIMIT < c.end < I64_LIMIT
  }

  lemma ParsePrintedInt(n: int)
    requires -I64_LIMIT < n < I64_LIMIT
    ensures ParseI64(PrintInt(n)) == Some(n) && ':' !in PrintInt(n)
  {
    var d := if n < 0 then Print(-n) else Print(n);
    ValueOfPrint(if n < 0 then -n else n);
    assert IsDigit(d[0]);
    assert Unsigned(PrintInt(n)) == d;
  }

  /** Every id the feed prints is accepted and names the clip it was printed for. */
  lemma ParsePrintedId(c: MotionClip)
    requires Plausible(c)
    ensures ParseMotionId(MotionId(c)) == Some(c)
    ensures StartText(MotionId(c)) == PrintInt(c.start) && EndText(MotionId(c)) == PrintInt(c.end)
  {
    ParsePrintedInt(c.start);
    ParsePrintedInt(c.end);
    var tail := PrintInt(c.start) + (":" + PrintInt(c.end));
    assert MotionId(c)[2..] == c.camera + (":" + tail);
    SplitOnceAt(c.camera, ':', tail);
    SplitOnceAt(PrintInt(c.start), ':', PrintInt(c.end));
    SplitOnceAt(PrintInt(c.end), ':', "");
  }

  // ---- cache file names -------------------------------------------------------

  function SanitizeChar(c: char): char {
    if IsAlphanumeric(c) then c else '_'
  }

  function Sanitize(id: string): string {
    seq(|id|, i requires 0 <= i < |id| => SanitizeChar(id[i]))
  }

  datatype Quality = Preview | Full

  function QualityName(q: Quality): string {
    if q == Preview then "preview" else "full"
  }

  function WindowTag(overviewSecs: nat, preSecs: nat): string {
    "v" + (Print(WINDOW_SCHEME) + ("-" + (Print(overviewSecs) + ("s" + (Print(preSecs) + "s")))))
  }

  function Filename(id: string, q: Quality, overviewSecs: nat, preSecs: nat): string {
    Sanitize(id) + ("." + (WindowTag(overviewSecs, preSecs) + ("." + (QualityName(q) + ".mp4"))))
  }

  lemma NoDots(id: string, overviewSecs: nat, preSecs: nat)
    ensures '.' !in Sanitize(id) && '.' !in WindowTag(overviewSecs, preSecs)
  {
    assert forall c :: c in Sanitize(id) ==> IsAlphanumeric(c) || c == '_';
    assert forall c :: c in Print(overviewSecs) ==> IsDigit(c);
    assert forall c :: c in Print(preSecs) ==> IsDigit(c);
  }

  lemma SplitsEqually(a: string, b: string, a': string, b': string, sep: char)
    requires sep !in a && sep !in a' && a + ([sep] + b) == a' + ([sep] + b')
    ensures a == a' && b == b'
  {
    SplitOnceAt(a, sep, b);
    SplitOnceAt(a', sep, b');
  }

  lemma WindowTagDetermines(o: nat, p: nat, o': nat, p': nat)
    requires WindowTag(o, p) == WindowTag(o', p')
    ensures o == o' && p == p'
  {
    var v := "v" + Print(WINDOW_SCHEME);
    assert forall c :: c in Print(WINDOW_SCHEME) || c in Print(o) || c in Print(o') || c in Print(p) || c in Print(p') ==>
      IsDigit(c);
    var t, t' := Print(o) + ("s" + (Print(p) + "s")), Print(o') + ("s" + (Print(p') + "s"));
    assert WindowTag(o, p) == v + (['-'] + t) && WindowTag(o', p') == v + (['-'] + t');
    SplitsEqually(v, t, v, t', '-');
    SplitsEqually(Print(o), Print(p) + "s", Print(o'), Print(p') + "s", 's');
    assert ['s'] + "" == "s";
    SplitsEqually(Print(p), "", Print(p'), "", 's');
    PrintIsInjective(o, o');
    PrintIsInjective(p, p');
  }

  /** A file name determines the sanitised id, the quality and both settings. */
  lemma FilenameDetermines(id: string, q: Quality, o: nat, p: nat, id': string, q': Quality, o': nat, p': nat)
    requires Filename(id, q, o, p) == Filename(id', q', o', p')
    ensures Sanitize(id) == Sanitize(id') && q == q' && o == o' && p == p'
  {
    NoDots(id, o, p);
    NoDots(id', o', p');
    var r, r' := QualityName(q) + ".mp4", QualityName(q') + ".mp4";
    SplitsEqually(Sanitize(id), WindowTag(o, p) + ("." + r), Sanitize(id'), WindowTag(o', p') + ("." + r'), '.');
    SplitsEqually(WindowTag(o, p), r, WindowTag(o', p'), r', '.');
    WindowTagDetermines(o, p, o', p');
    assert r[1] != r'[1] || q == q';
  }

  function Etag(id: string, q: Quality, overviewSecs: nat, preSecs: nat): string {
    "\"" + (Sanitize(id) + ("-" + (QualityName(q) + ("-" + (WindowTag(overviewSecs, preSecs) + "\"")))))
  }

  lemma EtagDetermines(id: string, q: Quality, o: nat, p: nat, id': string, q': Quality, o': nat, p': nat)
    requires Etag(id, q, o, p) == Etag(id', q', o', p')
    ensures Sanitize(id) == Sanitize(id') && QualityName(q) == QualityName(q') && WindowTag(o, p) == WindowTag(o', p')
  {
    var t, t' := WindowTag(o, p), WindowTag(o', p');
    var r, r' := QualityName(q) + ("-" + (t + "\"")), QualityName(q') + ("-" + (t' + "\""));
    SplitAtLength("\"", Sanitize(id) + ("-" + r), "\"", Sanitize(id') + ("-" + r'));
    assert forall c :: c in Sanitize(id) || c in Sanitize(id') ==> IsAlphanumeric(c) || c == '_';
    SplitsEqually(Sanitize(id), r, Sanitize(id'), r', '-');
    SplitsEqually(QualityName(q), t + "\"", QualityName(q'), t' + "\"", '-');
    assert (t + "\"")[..|t + "\""| - 1] == t && (t' + "\"")[..|t' + "\""| - 1] == t';
  }

  /** A client's validator matches exactly when the cached file is the one it was sent. */
  lemma EtagsMatchFiles(id: string, q: Quality, o: nat, p: nat, id': string, q': Quality, o': nat, p': nat)
    ensures Etag(id, q, o, p) == Etag(id', q', o', p') <==> Filename(id, q, o, p) == Filename(id', q', o', p')
  {
    if Filename(id, q, o, p) == Filename(id', q', o', p') {
      FilenameDetermines(id, q, o, p, id', q', o', p');
    } else if Etag(id, q, o, p) == Etag(id', q', o', p') {
      EtagDetermines(id, q, o, p, id', q', o', p');
    }
  }

  // ---- what the sanitised form of an accepted id still says -------------------

  lemma SanitizeConcat(a: string, b: string)
    ensures Sanitize(a + b) == Sanitize(a) + Sanitize(b)
  {
  }

  predicate Accepted(s: string) {
    ParseI64(s).Some?
  }

  /** Sanitising keeps the digits of an integer and whether it has a sign, not which. */
  lemma SanitizedInt(s: string, rest: string, s': string, rest': string)
    requires Accepted(s) && Accepted(s')
    requires rest != "" ==> !IsDigit(rest[0])
    requires rest' != "" ==> !IsDigit(rest'[0])
    requires Sanitize(s) + rest == Sanitize(s') + rest'
    ensures HasSign(s) == HasSign(s') && Unsigned(s) == Unsigned(s') && rest == rest'
  {
    SanitizedDigits(s);
    SanitizedDigits(s');
    var d, d' := Unsigned(s), Unsigned(s');
    assert IsDigit(d[0]) && IsDigit(d'[0]);
    assert (Sanitize(s) + rest)[0] == '_' <==> HasSign(s);
    assert (Sanitize(s') + rest')[0] == '_' <==> HasSign(s');
    var n := if HasSign(s) then 1 else 0;
    assert (Sanitize(s) + rest)[n..] == d + rest && (Sanitize(s') + rest')[n..] == d' + rest';
    LeadingDigitsOf(d, rest);
    LeadingDigitsOf(d', rest');
    assert (d + rest)[|d|..] == rest && (d' + rest')[|d'|..] == rest';
  }

  lemma SanitizedDigits(s: string)
    requires Accepted(s)
    ensures Unsigned(s) != "" && AllDigits(Unsigned(s))
    ensures Sanitize(s) == (if HasSign(s) then "_" else "") + Unsigned(s)
  {
    var d := Unsigned(s);
    assert Sanitize(d) == d;
    if HasSign(s) {
      assert s == [s[0]] + d;
    }
  }

  lemma Regroup(a: string, b: string, c: string)
    ensures a + (b + c) == (a + b) + c
  {
  }

  lemma {:induction false} SplitOnceRejoins(s: string, sep: char)
    ensures var r := SplitOnce(s, sep);
            sep !in r.0 && s == r.0 + if r.1.Some? then [sep] + r.1.value else ""
    decreases |s|
  {
    if s != "" && s[0] != sep {
      SplitOnceRejoins(s[1..], sep);
      var r := SplitOnce(s[1..], sep);
      Regroup([s[0]], r.0, if r.1.Some? then [sep] + r.1.value else "");
      assert s == [s[0]] + s[1..];
    }
  }

  /** The shape of an accepted id. */
  lemma AcceptedShape(id: string) returns (st: string, et: string, tail: string)
    requires ParseMotionId(id).Some?
    ensures var c := ParseMotionId(id).value;
            && st == StartText(id) && et == EndText(id)
            && IsUuid(c.camera) && ParseI64(st) == Some(c.start) && ParseI64(et) == Some(c.end)
            && id == "m:" + (c.camera + (":" + (st + (":" + (et + tail)))))
    ensures tail != "" ==> tail[0] == ':'
  {
    var c := ParseMotionId(id).value;
    var r1 := Rest(id[2..]).value;
    var r2 := Rest(r1).value;
    SplitOnceRejoins(id[2..], ':');
    SplitOnceRejoins(r1, ':');
    SplitOnceRejoins(r2, ':');
    st, et := Part(r1), Part(r2);
    tail := if Rest(r2).Some? then ":" + Rest(r2).value else "";
    assert r2 == et + tail;
    assert id == "m:" + id[2..];
  }

  lemma SanitizedShape(id: string, cam: string, st: string, et: string, tail: string)
    requires id == "m:" + (cam + (":" + (st + (":" + (et + tail)))))
    ensures Sanitize(id) == "m_" + (Sanitize(cam) + ("_" + (Sanitize(st) + ("_" + (Sanitize(et) + Sanitize(tail))))))
  {
    SanitizeConcat(et, tail);
    SanitizeConcat(":", et + tail);
    SanitizeConcat(st, ":" + (et + tail));
    SanitizeConcat(":", st + (":" + (et + tail)));
    SanitizeConcat(cam, ":" + (st + (":" + (et + tail))));
    SanitizeConcat("m:", cam + (":" + (st + (":" + (et + tail)))));
    assert Sanitize(":") == "_" && Sanitize("m:") == "m_";
  }

  lemma SanitizedCamera(cam: string, cam': string)
    requires IsUuid(cam) && IsUuid(cam') && Sanitize(cam) == Sanitize(cam')
    ensures cam == cam'
  {
    forall i | 0 <= i < 36
      ensures cam[i] == cam'[i]
    {
      assert SanitizeChar(cam[i]) == Sanitize(cam)[i] && SanitizeChar(cam'[i]) == Sanitize(cam')[i];
    }
  }

  lemma SplitAtLength(a: string, b: string, a': string, b': string)
    requires |a| == |a'| && a + b == a' + b'
    ensures a == a' && b == b'
  {
    assert (a + b)[..|a|] == a && (a' + b')[..|a|] == a';
    assert (a + b)[|a|..] == b && (a' + b')[|a|..] == b';
  }

  /** An instant written with a sign, and whose opposite is another one. */
  predicate Flippable(text: string) {
    && HasSign(text) && ParseI64(text).Some?
    && ParseI64(text).value != 0 && ParseI64(text).value != -I64_LIMIT
  }

  /** Two accepted ids that share a cache file name the same camera and the same instants, up
      to the signs of instants written with one. */
  lemma SharedNameAgrees(id: string, id': string)
    requires ParseMotionId(id).Some? && ParseMotionId(id').Some? && Sanitize(id) == Sanitize(id')
    ensures var c, c' := ParseMotionId(id).value, ParseMotionId(id').value;
            && c.camera == c'.camera
            && (c'.start == c.start || (Flippable(StartText(id)) && c'.start == -c.start))
            && (c'.end == c.end || (Flippable(EndText(id)) && c'.end == -c.end))
  {
    var c, c' := ParseMotionId(id).value, ParseMotionId(id').value;
    var st, et, tail := AcceptedShape(id);
    var st', et', tail' := AcceptedShape(id');
    SanitizedShape(id, c.camera, st, et, tail);
    SanitizedShape(id', c'.camera, st', et', tail');
    var t, t' := "_" + (Sanitize(et) + Sanitize(tail)), "_" + (Sanitize(et') + Sanitize(tail'));
    SplitAtLength("m_", Sanitize(c.camera) + ("_" + (Sanitize(st) + t)),
                  "m_", Sanitize(c'.camera) + ("_" + (Sanitize(st') + t')));
    SplitAtLength(Sanitize(c.camera), "_" + (Sanitize(st) + t), Sanitize(c'.camera), "_" + (Sanitize(st') + t'));
    SanitizedCamera(c.camera, c'.camera);
    SplitAtLength("_", Sanitize(st) + t, "_", Sanitize(st') + t');
    SanitizedInt(st, t, st', t');
    SplitAtLength("_", Sanitize(et) + Sanitize(tail), "_", Sanitize(et') + Sanitize(tail'));
    SanitizedInt(et, Sanitize(tail), et', Sanitize(tail'));
  }

  /** For the ids the feed prints, a file name determines the clip, the quality and both
      settings. */
  lemma FileDeterminesClip(c: MotionClip, q: Quality, o: nat, p: nat, c': MotionClip, q': Quality, o': nat, p': nat)
    requires Plausible(c) && Plausible(c')
    requires Filename(MotionId(c), q, o, p) == Filename(MotionId(c'), q', o', p')
    ensures c == c' && q == q' && o == o' && p == p'
  {
    FilenameDetermines(MotionId(c), q, o, p, MotionId(c'), q', o', p');
    ParsePrintedId(c);
    ParsePrintedId(c');
    SharedNameAgrees(MotionId(c), MotionId(c'));
    SharedNameAgrees(MotionId(c'), MotionId(c));
  }

  // ---- ids that share a file --------------------------------------------------

  function Flip(text: string): string {
    if text == "" then ""
    else [if text[0] == '+' then '-' else '+'] + text[1..]
  }

  lemma FlipNegates(text: string)
    requires Flippable(text)
    ensures ParseI64(Flip(text)) == Some(-ParseI64(text).value) && Sanitize(Flip(text)) == Sanitize(text)
  {
    assert Unsigned(Flip(text)) == Unsigned(text);
    assert text == [text[0]] + text[1..];
  }

  lemma ParseParts(camera: string, st: string, et: string, tail: string)
    requires IsUuid(camera) && Accepted(st) && Accepted(et) && (tail != "" ==> tail[0] == ':')
    ensures ParseMotionId("m:" + (camera + (":" + (st + (":" + (et + tail)))))) ==
            Some(MotionClip(camera, ParseI64(st).value, ParseI64(et).value))
  {
    var id := "m:" + (camera + (":" + (st + (":" + (et + tail)))));
    assert id[2..] == camera + (":" + (st + (":" + (et + tail))));
    SplitOnceAt(camera, ':', st + (":" + (et + tail)));
    SplitOnceAt(st, ':', et + tail);
    if tail == "" {
      assert et + tail == et;
      SplitOnceAt(et, ':', "");
    } else {
      assert tail == ":" + tail[1..];
      SplitOnceAt(et, ':', tail[1..]);
    }
  }

  /** The same id with its instants written otherwise. */
  lemma Rewritten(id: string, st': string, et': string) returns (twin: string)
    requires ParseMotionId(id).Some? && Accepted(st') && Accepted(et')
    requires Sanitize(st') == Sanitize(StartText(id)) && Sanitize(et') == Sanitize(EndText(id))
    ensures ParseMotionId(twin) ==
            Some(MotionClip(ParseMotionId(id).value.camera, ParseI64(st').value, ParseI64(et').value))
    ensures Sanitize(twin) == Sanitize(id)
  {
    var camera := ParseMotionId(id).value.camera;
    var st, et, tail := AcceptedShape(id);
    twin := "m:" + (camera + (":" + (st' + (":" + (et' + tail)))));
    ParseParts(camera, st', et', tail);
    SanitizedShape(id, camera, st, et, tail);
    SanitizedShape(twin, camera, st', et', tail);
  }

  lemma FlippedStart(id: string) returns (twin: string)
    requires ParseMotionId(id).Some? && Flippable(StartText(id)) && Accepted(EndText(id))
    requires ParseI64(StartText(id)) == Some(ParseMotionId(id).value.start)
    requires ParseI64(EndText(id)) == Some(ParseMotionId(id).value.end)
    ensures var c := ParseMotionId(id).value; ParseMotionId(twin) == Some(MotionClip(c.camera, -c.start, c.end))
    ensures Sanitize(twin) == Sanitize(id)
  {
    FlipNegates(StartText(id));
    twin := Rewritten(id, Flip(StartText(id)), EndText(id));
  }

  lemma FlippedEnd(id: string) returns (twin: string)
    requires ParseMotionId(id).Some? && Accepted(StartText(id)) && Flippable(EndText(id))
    requires ParseI64(StartText(id)) == Some(ParseMotionId(id).value.start)
    requires ParseI64(EndText(id)) == Some(ParseMotionId(id).value.end)
    ensures var c := ParseMotionId(id).value; ParseMotionId(twin) == Some(MotionClip(c.camera, c.start, -c.end))
    ensures Sanitize(twin) == Sanitize(id)
  {
    FlipNegates(EndText(id));
    twin := Rewritten(id, StartText(id), Flip(EndText(id)));
  }

  /** Whoever writes an instant with a sign shares the file with the opposite instant. */
  lemma FlippedTwin(id: string, start: bool) returns (twin: string)
    requires ParseMotionId(id).Some? && Flippable(if start then StartText(id) else EndText(id))
    ensures var c := ParseMotionId(id).value;
            ParseMotionId(twin) == Some(if start then c.(start := -c.start) else c.(end := -c.end))
    ensures Sanitize(twin) == Sanitize(id)
  {
    var st, et, tail := AcceptedShape(id);
    if start {
      twin := FlippedStart(id);
    } else {
      twin := FlippedEnd(id);
    }
  }
}
