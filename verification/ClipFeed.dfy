/** One page of the clip feed: the newest detections the database returned and every
    motion event of the window, sorted newest first and cut to the page. */
module ClipFeed {
  import opened Basics
  import opened MotionRuns
  import opened Options
  import opened StableSort

  const DEFAULT_LIMIT := 500
  const MAX_LIMIT := 2_000

  /** 31 days. */
  const MAX_WINDOW: Instant := 31 * 86_400_000_000

  /** A detection event of the window, as the database holds it. */
  datatype Row = Row(id: nat, camera: nat, objectLabel: string, ts: Instant, end: Option<Instant>)

  datatype ClipId = Detection(event: nat) | Motion(camera: nat, start: Instant, end: Instant)
  datatype Clip = Clip(
    id: ClipId, camera: nat, objectLabel: string, start: Instant, end: Instant, ongoing: bool, bbox: Option<Bbox>)

  /** The recorded segments of one camera in the window. */
  datatype Footage = Footage(camera: nat, segments: seq<Item>)

  datatype Page = Page(clips: seq<Clip>, total: nat)

  datatype Answer = BadRequest | Answered(page: Page)

  predicate Newer(a: Clip, b: Clip) {
    a.start >= b.start
  }

  predicate IsMotionLabel(r: Row) {
    r.objectLabel == "motion"
  }

  function DetectionClip(r: Row): Clip {
    Clip(Detection(r.id), r.camera, r.objectLabel, r.ts, if r.end.Some? then r.end.value else r.ts, r.end.None?, None)
  }

  /** Rows labelled motion would repeat the motion clips and are skipped. */
  function DetectionClips(rows: seq<Row>): seq<Clip> {
    if rows == [] then []
    else (if IsMotionLabel(rows[0]) then [] else [DetectionClip(rows[0])]) + DetectionClips(rows[1..])
  }

  function MotionClip(camera: nat, r: Run): Clip {
    Clip(Motion(camera, r.start, r.end), camera, "motion", r.start, r.end, false, r.bbox)
  }

  function ClipsOfRuns(camera: nat, runs: seq<Run>): seq<Clip> {
    if runs == [] then [] else [MotionClip(camera, runs[0])] + ClipsOfRuns(camera, runs[1..])
  }

  /** `runs` are the motion events of each camera's footage. */
  ghost predicate AreRunsOf(footage: seq<Footage>, runs: seq<seq<Run>>) {
    |runs| == |footage| && forall i :: 0 <= i < |runs| ==> AreMotionRuns(footage[i].segments, runs[i])
  }

  /** The motion clips of all cameras, camera by camera. */
  function MotionClips(footage: seq<Footage>, runs: seq<seq<Run>>): seq<Clip>
    requires |runs| == |footage|
  {
    var n := |runs| - 1;
    if n < 0 then [] else MotionClips(footage[..n], runs[..n]) + ClipsOfRuns(footage[n].camera, runs[n])
  }

  /** Newest first, as the query orders them. */
  ghost predicate NewestFirst(rows: seq<Row>) {
    forall i, j :: 0 <= i < j < |rows| ==> rows[i].ts >= rows[j].ts
  }

  ghost predicate Recorded(footage: seq<Footage>) {
    forall i :: 0 <= i < |footage| ==> SortedByStart(WithMotion(footage[i].segments))
  }

  lemma NewerIsPreorder()
    ensures TotalPreorder(Newer)
  {
  }

  /** Every clip of the window, newest first. */
  function Feed(rows: seq<Row>, motion: seq<Clip>): seq<Clip> {
    Sort(DetectionClips(rows) + motion, Newer)
  }

  function PageOf(rows: seq<Row>, motion: seq<Clip>, limit: nat): seq<Clip> {
    Take(Feed(Take(rows, limit), motion), limit)
  }

  function Limit(requested: Option<int>): nat {
    Clamp(if requested.Some? then requested.value else DEFAULT_LIMIT, 1, MAX_LIMIT)
  }

  /** The number of clips asked for, 500 if none is; one or 2000 where the number is beyond. */
  lemma LimitIsNearest(requested: Option<int>)
    ensures requested.None? ==> Limit(requested) == 500
    ensures requested.Some? && 1 <= requested.value <= 2000 ==> Limit(requested) == requested.value
    ensures requested.Some? && requested.value < 1 ==> Limit(requested) == 1
    ensures requested.Some? && requested.value > 2000 ==> Limit(requested) == 2000
  {
  }

  lemma {:induction false} DetectionClipsAppend(a: seq<Row>, b: seq<Row>)
    ensures DetectionClips(a + b) == DetectionClips(a) + DetectionClips(b)
    decreases |a|
  {
    if a == [] {
      assert a + b == b;
    } else {
      DetectionClipsAppend(a[1..], b);
      var first := if IsMotionLabel(a[0]) then [] else [DetectionClip(a[0])];
      assert (a + b)[0] == a[0] && (a + b)[1..] == a[1..] + b;
      assert first + (DetectionClips(a[1..]) + DetectionClips(b)) == first + DetectionClips(a[1..]) + DetectionClips(b);
    }
  }

  lemma {:induction false} ClipsOfRunsAppend(camera: nat, a: seq<Run>, r: Run)
    ensures ClipsOfRuns(camera, a + [r]) == ClipsOfRuns(camera, a) + [MotionClip(camera, r)]
    decreases |a|
  {
    if a != [] {
      ClipsOfRunsAppend(camera, a[1..], r);
      assert (a + [r])[1..] == a[1..] + [r];
    }
  }

  method GatherDetections(returned: seq<Row>) returns (clips: seq<Clip>)
    ensures clips == DetectionClips(returned)
  {
    clips := [];
    for i := 0 to |returned|
      invariant clips == DetectionClips(returned[..i])
    {
      assert returned[..i + 1] == returned[..i] + [returned[i]];
      DetectionClipsAppend(returned[..i], [returned[i]]);
      if returned[i].objectLabel != "motion" {
        clips := clips + [DetectionClip(returned[i])];
      }
    }
    assert returned[..|returned|] == returned;
  }

  method PushRuns(clips: seq<Clip>, camera: nat, runs: seq<Run>) returns (r: seq<Clip>)
    ensures r == clips + ClipsOfRuns(camera, runs)
  {
    r := clips;
    for k := 0 to |runs|
      invariant r == clips + ClipsOfRuns(camera, runs[..k])
    {
      assert runs[..k + 1] == runs[..k] + [runs[k]];
      ClipsOfRunsAppend(camera, runs[..k], runs[k]);
      r := r + [MotionClip(camera, runs[k])];
    }
    assert runs[..|runs|] == runs;
  }

  /** `motion` lists the motion clips of the cameras' footage. */
  ghost predicate AreMotionClips(footage: seq<Footage>, motion: seq<Clip>) {
    exists runs :: AreRunsOf(footage, runs) && motion == MotionClips(footage, runs)
  }

  /** The page of the first `limit` clips and the number of clips it counts. */
  ghost predicate IsPage(page: Page, rows: seq<Row>, footage: seq<Footage>, limit: nat) {
    exists motion :: AreMotionClips(footage, motion)
                     && page == Page(PageOf(rows, motion, limit), |rows| + |motion|)
  }

  lemma MotionClipsAreUnique(footage: seq<Footage>, runs: seq<seq<Run>>, runs': seq<seq<Run>>)
    requires AreRunsOf(footage, runs) && AreRunsOf(footage, runs')
    ensures runs == runs'
  {
    forall i | 0 <= i < |footage|
      ensures runs[i] == runs'[i]
    {
      ResultIsUnique(footage[i].segments, runs[i], runs'[i]);
    }
  }

  lemma PageIsUnique(page: Page, page': Page, rows: seq<Row>, footage: seq<Footage>, limit: nat)
    requires IsPage(page, rows, footage, limit) && IsPage(page', rows, footage, limit)
    ensures page == page'
  {
    var motion :| AreMotionClips(footage, motion) && page == Page(PageOf(rows, motion, limit), |rows| + |motion|);
    var motion' :| AreMotionClips(footage, motion') && page' == Page(PageOf(rows, motion', limit), |rows| + |motion'|);
    var runs :| AreRunsOf(footage, runs) && motion == MotionClips(footage, runs);
    var runs' :| AreRunsOf(footage, runs') && motion' == MotionClips(footage, runs');
    MotionClipsAreUnique(footage, runs, runs');
  }

  lemma OneMoreCamera(footage: seq<Footage>, i: nat, runs: seq<seq<Run>>, found: seq<Run>)
    requires i < |footage| && AreRunsOf(footage[..i], runs) && AreMotionRuns(footage[i].segments, found)
    ensures AreRunsOf(footage[..i + 1], runs + [found])
    ensures MotionClips(footage[..i + 1], runs + [found])
         == MotionClips(footage[..i], runs) + ClipsOfRuns(footage[i].camera, found)
  {
    assert footage[..i + 1][..i] == footage[..i] && (runs + [found])[..i] == runs;
  }

  method GatherMotion(footage: seq<Footage>) returns (clips: seq<Clip>)
    requires Recorded(footage)
    ensures AreMotionClips(footage, clips)
  {
    clips := [];
    ghost var runs: seq<seq<Run>> := [];
    for i := 0 to |footage|
      invariant AreRunsOf(footage[..i], runs) && clips == MotionClips(footage[..i], runs)
    {
      var found := MotionRuns.MotionRuns(footage[i].segments);
      OneMoreCamera(footage, i, runs, found);
      clips := PushRuns(clips, footage[i].camera, found);
      runs := runs + [found];
    }
    assert footage[..|footage|] == footage;
  }

  /** No further back than 31 days before the end. */
  function WindowStart(start: Instant, end: Instant): (from: Instant)
    ensures start <= from && end - from <= MAX_WINDOW
    ensures from != start ==> end - from == MAX_WINDOW
  {
    if end - start > MAX_WINDOW then end - MAX_WINDOW else start
  }

  /** A window of up to 31 days, in microseconds, is kept; a longer one is cut to its last 31. */
  lemma WindowIsCut(start: Instant, end: Instant)
    ensures WindowStart(start, end) == if end - start <= 2_678_400_000_000 then start else end - 2_678_400_000_000
  {
  }

  predicate WantsDetections(kind: Option<string>) {
    kind.None? || kind.value == "all" || kind.value == "detection"
  }

  predicate WantsMotion(kind: Option<string>) {
    kind.None? || kind.value == "all" || kind.value == "motion"
  }

  /** Without a kind, or for `all`, both are wanted; for one of the two that one; for any other
      word neither. */
  lemma KindsExactly(kind: Option<string>)
    ensures kind == None || kind == Some("all") ==> WantsDetections(kind) && WantsMotion(kind)
    ensures kind == Some("detection") ==> WantsDetections(kind) && !WantsMotion(kind)
    ensures kind == Some("motion") ==> !WantsDetections(kind) && WantsMotion(kind)
    ensures kind != None && kind != Some("all") && kind != Some("detection") && kind != Some("motion") ==>
      !WantsDetections(kind) && !WantsMotion(kind)
  {
    assert |"all"| == 3 && |"detection"| == 9 && |"motion"| == 6;
  }

  /** The events that start in the window, as the query selects them. */
  function RowsIn(events: seq<Row>, from: Instant, end: Instant): seq<Row> {
    if events == [] then []
    else (if from <= events[0].ts < end then [events[0]] else []) + RowsIn(events[1..], from, end)
  }

  /** The segments that overlap the window, as the query selects them. */
  function SegmentsIn(segments: seq<Item>, from: Instant, end: Instant): seq<Item> {
    if segments == [] then []
    else
      (if segments[0].start < end && segments[0].end > from then [segments[0]] else [])
      + SegmentsIn(segments[1..], from, end)
  }

  function FootageIn(footage: seq<Footage>, from: Instant, end: Instant): seq<Footage> {
    seq(|footage|, i requires 0 <= i < |footage| =>
      Footage(footage[i].camera, SegmentsIn(footage[i].segments, from, end)))
  }

  lemma {:induction false} SegmentsInCommutes(segments: seq<Item>, from: Instant, end: Instant)
    ensures WithMotion(SegmentsIn(segments, from, end)) == SegmentsIn(WithMotion(segments), from, end)
    decreases |segments|
  {
    if segments != [] {
      var rest := SegmentsIn(segments[1..], from, end);
      SegmentsInCommutes(segments[1..], from, end);
      assert ([segments[0]] + rest)[1..] == rest && [] + rest == rest;
      assert ([segments[0]] + WithMotion(segments[1..]))[1..] == WithMotion(segments[1..]);
    }
  }

  /** The segments that share more than a bound with the window. */
  lemma {:induction false} SegmentsInAreThose(m: seq<Item>, from: Instant, end: Instant)
    ensures forall x :: x in SegmentsIn(m, from, end) <==> x in m && x.start < end && from < x.end
    decreases |m|
  {
    if m != [] {
      SegmentsInAreThose(m[1..], from, end);
      assert m == [m[0]] + m[1..];
    }
  }

  lemma SortedCons(x: Item, rest: seq<Item>)
    requires SortedByStart(rest) && forall y :: y in rest ==> x.start <= y.start
    ensures SortedByStart([x] + rest)
  {
  }

  lemma {:induction false} SegmentsInStaySorted(m: seq<Item>, from: Instant, end: Instant)
    requires SortedByStart(m)
    ensures SortedByStart(SegmentsIn(m, from, end))
    decreases |m|
  {
    if m != [] {
      SegmentsInAreThose(m[1..], from, end);
      SegmentsInStaySorted(m[1..], from, end);
      SortedCons(m[0], SegmentsIn(m[1..], from, end));
    }
  }

  lemma WindowIsRecorded(footage: seq<Footage>, from: Instant, end: Instant)
    requires Recorded(footage)
    ensures Recorded(FootageIn(footage, from, end))
  {
    forall i | 0 <= i < |footage|
      ensures SortedByStart(WithMotion(SegmentsIn(footage[i].segments, from, end)))
    {
      SegmentsInCommutes(footage[i].segments, from, end);
      SegmentsInStaySorted(WithMotion(footage[i].segments), from, end);
    }
  }

  lemma NoFootageNoMotion()
    ensures AreMotionClips([], [])
  {
    assert AreRunsOf([], []) && [] == MotionClips([], []);
  }

  /** `events` are all events of the cameras, newest first, and `footage` all their segments.
      The database returns the first `limit` rows of the window, the number of its rows, and
      its segments per camera. */
  method GetClips(events: seq<Row>, footage: seq<Footage>, start: Instant, end: Instant, kind: Option<string>,
                  requested: Option<int>)
    returns (answer: Answer)
    requires Recorded(footage)
    ensures answer.BadRequest? <==> start >= end
    ensures answer.Answered? ==>
              var from := WindowStart(start, end);
              IsPage(answer.page, if WantsDetections(kind) then RowsIn(events, from, end) else [],
                     if WantsMotion(kind) then FootageIn(footage, from, end) else [], Limit(requested))
  {
    if start >= end {
      return BadRequest;
    }
    var from := WindowStart(start, end);
    var limit := Limit(requested);
    var clips: seq<Clip> := [];
    var detTotal := 0;
    if WantsDetections(kind) {
      var rows := RowsIn(events, from, end);
      clips := GatherDetections(Take(rows, limit));
      detTotal := |rows|;
    }
    var detPushed := |clips|;
    var motion: seq<Clip> := [];
    if WantsMotion(kind) {
      WindowIsRecorded(footage, from, end);
      motion := GatherMotion(FootageIn(footage, from, end));
      clips := clips + motion;
    } else {
      NoFootageNoMotion();
      assert clips + motion == clips;
    }
    var motionCount := |clips| - detPushed;
    ghost var nothing: seq<Row> := [];
    assert Take(nothing, limit) == nothing;
    assert AreMotionClips(if WantsMotion(kind) then FootageIn(footage, from, end) else [], motion);
    answer := Answered(Page(Take(Sort(clips, Newer), limit), detTotal + motionCount));
  }

  lemma {:induction false} RowsInAreThose(events: seq<Row>, from: Instant, end: Instant)
    ensures forall r :: r in RowsIn(events, from, end) <==> r in events && from <= r.ts < end
    decreases |events|
  {
    if events != [] {
      RowsInAreThose(events[1..], from, end);
      assert events == [events[0]] + events[1..];
    }
  }

  lemma NewestFirstCons(r: Row, rest: seq<Row>)
    requires NewestFirst(rest) && forall q :: q in rest ==> r.ts >= q.ts
    ensures NewestFirst([r] + rest)
  {
  }

  /** The window of events that are listed newest first is listed newest first. */
  lemma {:induction false} WindowIsNewestFirst(events: seq<Row>, from: Instant, end: Instant)
    requires NewestFirst(events)
    ensures NewestFirst(RowsIn(events, from, end))
    decreases |events|
  {
    if events != [] {
      RowsInAreThose(events[1..], from, end);
      WindowIsNewestFirst(events[1..], from, end);
      assert forall q :: q in events[1..] ==> events[0].ts >= q.ts;
      NewestFirstCons(events[0], RowsIn(events[1..], from, end));
    }
  }

  // ---- what a page is ---------------------------------------------------------

  lemma {:induction false} DetectionClipsSorted(rows: seq<Row>)
    requires NewestFirst(rows)
    ensures Sorted(DetectionClips(rows), Newer)
    ensures forall c :: c in DetectionClips(rows) ==> exists r :: r in rows && c == DetectionClip(r)
    ensures |DetectionClips(rows)| <= |rows|
    decreases |rows|
  {
    if rows != [] {
      DetectionClipsSorted(rows[1..]);
      var rest := DetectionClips(rows[1..]);
      forall k | 0 <= k < |rest|
        ensures rows[0].ts >= rest[k].start
      {
        assert rest[k] in rest;
      }
    }
  }

  ghost predicate NoMotionLabels(rows: seq<Row>) {
    forall i :: 0 <= i < |rows| ==> !IsMotionLabel(rows[i])
  }

  ghost predicate OnlyMotionLabels(rows: seq<Row>) {
    forall i :: 0 <= i < |rows| ==> IsMotionLabel(rows[i])
  }

  /** No row labelled motion took the place of a detection beyond the first `limit` rows. */
  ghost predicate NoneDisplaced(rows: seq<Row>, limit: nat) {
    |rows| <= limit || NoMotionLabels(rows[..limit]) || OnlyMotionLabels(rows[limit..])
  }

  /** When the page's detections are the newest of the window, the page is the front of
      the whole feed. */
  lemma PageFromDetections(rows: seq<Row>, motion: seq<Clip>, limit: nat)
    requires NewestFirst(rows)
    requires DetectionClips(Take(rows, limit)) == Take(DetectionClips(rows), limit)
    ensures PageOf(rows, motion, limit) == Take(Feed(rows, motion), limit)
  {
    NewerIsPreorder();
    DetectionClipsSorted(rows);
    DetectionClipsSorted(Take(rows, limit));
    SortAppend(DetectionClips(rows), motion, Newer);
    SortAppend(DetectionClips(Take(rows, limit)), motion, Newer);
    TakeOfMerge(DetectionClips(rows), Sort(motion, Newer), limit, limit, Newer);
  }

  lemma {:induction false} CountDetections(rows: seq<Row>)
    ensures NoMotionLabels(rows) <==> |DetectionClips(rows)| == |rows|
    ensures OnlyMotionLabels(rows) <==> DetectionClips(rows) == []
    ensures |DetectionClips(rows)| <= |rows|
    decreases |rows|
  {
    if rows != [] {
      CountDetections(rows[1..]);
      assert forall i :: 0 < i < |rows| ==> rows[i] == rows[1..][i - 1];
    }
  }

  lemma FrontOfConcat<T>(a: seq<T>, b: seq<T>, k: nat)
    requires |a| <= k
    ensures Take(a + b, k) == a <==> |a| == k || b == []
  {
    if b != [] && |a| < k {
      assert |Take(a + b, k)| > |a|;
    }
  }

  lemma CutDetections(front: seq<Row>, rest: seq<Row>)
    ensures DetectionClips(front) == Take(DetectionClips(front + rest), |front|)
       <==> NoMotionLabels(front) || OnlyMotionLabels(rest)
  {
    DetectionClipsAppend(front, rest);
    CountDetections(front);
    CountDetections(rest);
    FrontOfConcat(DetectionClips(front), DetectionClips(rest), |front|);
  }

  /** The detections of a page are the newest ones exactly when none of the rows the query
      returned was labelled motion, or all rows it left out were. */
  lemma PageDetectionsExactly(rows: seq<Row>, limit: nat)
    ensures DetectionClips(Take(rows, limit)) == Take(DetectionClips(rows), limit)
       <==> NoneDisplaced(rows, limit)
  {
    if |rows| > limit {
      CutDetections(rows[..limit], rows[limit..]);
      assert rows == rows[..limit] + rows[limit..];
    } else {
      CountDetections(rows);
    }
  }

  /** Whatever motion there was, a page is the newest `limit` clips of the window — exactly
      when no row labelled motion took the place of a detection that was left out. */
  lemma PageIsExactly(rows: seq<Row>, limit: nat)
    requires NewestFirst(rows)
    ensures (forall motion :: PageOf(rows, motion, limit) == Take(Feed(rows, motion), limit))
       <==> NoneDisplaced(rows, limit)
  {
    PageDetectionsExactly(rows, limit);
    if NoneDisplaced(rows, limit) {
      forall motion
        ensures PageOf(rows, motion, limit) == Take(Feed(rows, motion), limit)
      {
        PageFromDetections(rows, motion, limit);
      }
    } else {
      NewerIsPreorder();
      DetectionClipsSorted(rows);
      DetectionClipsSorted(rows[..limit]);
      SortedIsSort(DetectionClips(rows));
      SortedIsSort(DetectionClips(rows[..limit]));
      assert DetectionClips(rows) + [] == DetectionClips(rows);
      assert DetectionClips(rows[..limit]) + [] == DetectionClips(rows[..limit]);
      assert PageOf(rows, [], limit) != Take(Feed(rows, []), limit);
    }
  }

  lemma SortedIsSort(s: seq<Clip>)
    requires Sorted(s, Newer)
    ensures Sort(s, Newer) == s
  {
    NewerIsPreorder();
    SortIsStable(s, Newer);
    StableSortIsUnique(s, Sort(s, Newer), Newer);
  }

  lemma {:induction false} SortLength<T(!new)>(s: seq<T>, le: (T, T) -> bool)
    requires TotalPreorder(le)
    ensures |Sort(s, le)| == |s|
  {
    SortIsStable(s, le);
    assert |multiset(Sort(s, le))| == |multiset(s)|;
  }

  /** In general `total` overstates the feed by the rows labelled motion, and never
      understates it. */
  lemma TotalIsNeverLow(rows: seq<Row>, motion: seq<Clip>)
    ensures |rows| + |motion| >= |Feed(rows, motion)|
    ensures |rows| + |motion| == |Feed(rows, motion)| <==> NoMotionLabels(rows)
  {
    NewerIsPreorder();
    SortLength(DetectionClips(rows) + motion, Newer);
    CountDetections(rows);
  }
}
