/** What each clip of a page stands for. */
module ClipSources {
  import opened ClipFeed
  import opened MotionRuns
  import opened Options
  import opened StableSort

  /** The clip tells what the row says: an event without an end is still going on, and ends
      where it starts until then. */
  predicate StandsForRow(c: Clip, r: Row) {
    && c.id == Detection(r.id) && c.camera == r.camera && c.objectLabel == r.objectLabel
    && c.start == r.ts && c.bbox == None
    && match r.end
       case Some(end) => c.end == end && !c.ongoing
       case None => c.end == r.ts && c.ongoing
  }

  ghost predicate CoversChain(c: Clip, b: seq<Item>) {
    && (forall x :: x in b ==> c.start <= x.start && x.end <= c.end)
    && (exists x :: x in b && x.start == c.start) && (exists x :: x in b && x.end == c.end)
    && (c.bbox.None? <==> forall x :: x in b ==> x.bbox.None?)
    && (c.bbox.Some? ==> exists x :: x in b && x.bbox == c.bbox)
  }

  /** The clip covers a chain of the camera's motion segments, from the first start to the last
      end, for a second at least. */
  ghost predicate StandsForChain(c: Clip, camera: nat, b: seq<Item>) {
    && c.id == Motion(camera, c.start, c.end) && c.camera == camera && c.objectLabel == "motion"
    && !c.ongoing && c.end - c.start >= 1_000_000 && CoversChain(c, b)
  }

  /** `b` is one of the chains the motion segments of the footage are cut into. */
  ghost predicate IsChainOf(b: seq<Item>, f: Footage) {
    exists bs :: Chains(bs, WithMotion(f.segments)) && b in bs
  }

  ghost predicate StandsForMotion(c: Clip, footage: seq<Footage>) {
    exists f, b :: f in footage && IsChainOf(b, f) && StandsForChain(c, f.camera, b)
  }

  ghost predicate StandsForDetection(c: Clip, rows: seq<Row>) {
    exists r :: r in rows && r.objectLabel != "motion" && StandsForRow(c, r)
  }

  lemma {:induction false} DetectionsStand(rows: seq<Row>, c: Clip)
    ensures c in DetectionClips(rows) <==> StandsForDetection(c, rows)
    decreases |rows|
  {
    if rows != [] {
      var first := rows[0];
      DetectionsStand(rows[1..], c);
      assert rows == [first] + rows[1..];
      assert StandsForRow(c, first) <==> c == DetectionClip(first);
      if StandsForDetection(c, rows) && !StandsForDetection(c, rows[1..]) {
        var r :| r in rows && r.objectLabel != "motion" && StandsForRow(c, r);
        assert r == first;
      }
    }
  }

  // ---- chains -----------------------------------------------------------------

  lemma {:induction false} MotionSegments(items: seq<Item>)
    ensures forall x :: x in WithMotion(items) <==> x in items && x.hasMotion
    decreases |items|
  {
    if items != [] {
      MotionSegments(items[1..]);
      assert items == [items[0]] + items[1..];
    }
  }

  lemma {:induction false} ChainIsSorted(bs: seq<seq<Item>>, k: nat)
    requires k < |bs| && SortedByStart(Flatten(bs))
    ensures SortedByStart(bs[k])
    decreases k
  {
    var all, rest := Flatten(bs), Flatten(bs[1..]);
    assert forall i :: 0 <= i < |bs[0]| ==> all[i] == bs[0][i];
    if k > 0 {
      assert forall i :: 0 <= i < |rest| ==> rest[i] == all[|bs[0]| + i];
      ChainIsSorted(bs[1..], k - 1);
    }
  }

  lemma RunCovers(camera: nat, b: seq<Item>)
    requires b != [] && SortedByStart(b)
    ensures CoversChain(MotionClip(camera, RunOf(b)), b)
  {
    RunBounds(b);
    FirstBboxIsEarliest(b);
    forall x | x in b
      ensures x.bbox.None? || FirstBbox(b).Some?
    {
    }
    if FirstBbox(b).Some? {
      var i :| 0 <= i < |b| && b[i].bbox == FirstBbox(b);
      assert b[i] in b;
    }
  }

  /** The clip of a chain that lasts long enough. */
  lemma LongRunStands(camera: nat, b: seq<Item>)
    requires b != [] && SortedByStart(b) && LongEnough(RunOf(b))
    ensures StandsForChain(MotionClip(camera, RunOf(b)), camera, b)
  {
    RunCovers(camera, b);
  }

  lemma {:induction false} LongRunsOfThose(runs: seq<Run>)
    ensures forall r :: r in LongRuns(runs) <==> r in runs && LongEnough(r)
    decreases |runs|
  {
    if runs != [] {
      LongRunsOfThose(runs[1..]);
      assert runs == [runs[0]] + runs[1..];
    }
  }

  lemma RunStands(f: Footage, result: seq<Run>, r: Run)
    requires SortedByStart(WithMotion(f.segments)) && AreMotionRuns(f.segments, result) && r in result
    ensures exists b :: IsChainOf(b, f) && StandsForChain(MotionClip(f.camera, r), f.camera, b)
  {
    var bs: seq<seq<Item>>, runs: seq<Run> :|
      Chains(bs, WithMotion(f.segments)) && RunsOf(bs, runs) && result == LongRuns(runs);
    LongRunsOfThose(runs);
    var k :| 0 <= k < |runs| && runs[k] == r;
    ChainIsSorted(bs, k);
    LongRunStands(f.camera, bs[k]);
    assert bs[k] in bs;
  }

  lemma {:induction false} ClipsOfRunsAre(camera: nat, runs: seq<Run>, c: Clip)
    ensures c in ClipsOfRuns(camera, runs) <==> exists r :: r in runs && c == MotionClip(camera, r)
    decreases |runs|
  {
    if runs != [] {
      ClipsOfRunsAre(camera, runs[1..], c);
      assert runs == [runs[0]] + runs[1..];
    }
  }

  lemma StandsInMore(c: Clip, some: seq<Footage>, f: Footage)
    requires StandsForMotion(c, some)
    ensures StandsForMotion(c, some + [f])
  {
    var g, b :| g in some && IsChainOf(b, g) && StandsForChain(c, g.camera, b);
    assert g in some + [f];
  }

  lemma LastFootageStands(c: Clip, some: seq<Footage>, f: Footage, found: seq<Run>)
    requires SortedByStart(WithMotion(f.segments)) && AreMotionRuns(f.segments, found)
    requires c in ClipsOfRuns(f.camera, found)
    ensures StandsForMotion(c, some + [f])
  {
    ClipsOfRunsAre(f.camera, found, c);
    var r :| r in found && c == MotionClip(f.camera, r);
    RunStands(f, found, r);
    assert f in some + [f];
  }

  lemma {:induction false} MotionClipsStand(footage: seq<Footage>, runs: seq<seq<Run>>, c: Clip)
    requires Recorded(footage) && AreRunsOf(footage, runs) && c in MotionClips(footage, runs)
    ensures StandsForMotion(c, footage)
    decreases |footage|
  {
    var n := |footage| - 1;
    if n >= 0 {
      assert footage == footage[..n] + [footage[n]];
      if c in ClipsOfRuns(footage[n].camera, runs[n]) {
        LastFootageStands(c, footage[..n], footage[n], runs[n]);
      } else {
        MotionClipsStand(footage[..n], runs[..n], c);
        StandsInMore(c, footage[..n], footage[n]);
      }
    }
  }

  // ---- pages ------------------------------------------------------------------

  lemma FeedHolds(rows: seq<Row>, motion: seq<Clip>, c: Clip)
    ensures c in Feed(rows, motion) <==> StandsForDetection(c, rows) || c in motion
  {
    var all := DetectionClips(rows) + motion;
    NewerIsPreorder();
    SortIsStable(all, Newer);
    DetectionsStand(rows, c);
    assert c in Sort(all, Newer) <==> c in multiset(Sort(all, Newer));
    assert c in all <==> c in multiset(all);
  }

  lemma PageIsOfFeed(rows: seq<Row>, motion: seq<Clip>, limit: nat)
    ensures Sorted(PageOf(rows, motion, limit), Newer)
    ensures forall c :: c in PageOf(rows, motion, limit) ==> c in Feed(Take(rows, limit), motion)
  {
    NewerIsPreorder();
    SortIsStable(DetectionClips(Take(rows, limit)) + motion, Newer);
  }

  /** A page is newest first, and every clip on it stands for one of the newest rows, not
      labelled motion, or for a chain of motion segments of a camera. */
  lemma ClipsStand(page: Page, rows: seq<Row>, footage: seq<Footage>, limit: nat, c: Clip)
    requires Recorded(footage) && IsPage(page, rows, footage, limit)
    ensures forall i, j :: 0 <= i < j < |page.clips| ==> page.clips[i].start >= page.clips[j].start
    ensures c in page.clips ==> StandsForDetection(c, Take(rows, limit)) || StandsForMotion(c, footage)
  {
    var motion :| AreMotionClips(footage, motion) && page == Page(PageOf(rows, motion, limit), |rows| + |motion|);
    var runs :| AreRunsOf(footage, runs) && motion == MotionClips(footage, runs);
    PageIsOfFeed(rows, motion, limit);
    FeedHolds(Take(rows, limit), motion, c);
    if c in motion {
      MotionClipsStand(footage, runs, c);
    }
  }

  // ---- nothing is left out of the feed ----------------------------------------

  lemma {:induction false} MotionClipsHave(footage: seq<Footage>, runs: seq<seq<Run>>, i: nat, c: Clip)
    requires |runs| == |footage| && i < |footage| && c in ClipsOfRuns(footage[i].camera, runs[i])
    ensures c in MotionClips(footage, runs)
    decreases |footage|
  {
    var n := |footage| - 1;
    if i < n {
      MotionClipsHave(footage[..n], runs[..n], i, c);
    }
  }

  lemma ChainHasRun(f: Footage, b: seq<Item>, result: seq<Run>)
    requires IsChainOf(b, f) && AreMotionRuns(f.segments, result) && SortedByStart(WithMotion(f.segments))
    ensures b != [] && SortedByStart(b) && (LongEnough(RunOf(b)) ==> RunOf(b) in result)
  {
    var m := WithMotion(f.segments);
    var bs: seq<seq<Item>>, runs: seq<Run> :| Chains(bs, m) && RunsOf(bs, runs) && result == LongRuns(runs);
    var bs' :| Chains(bs', m) && b in bs';
    ChainsAreUnique(bs, bs', m);
    var k :| 0 <= k < |bs| && bs[k] == b;
    ChainIsSorted(bs, k);
    LongRunsOfThose(runs);
    assert runs[k] in runs;
  }

  /** Every chain of motion segments that lasts a second has its clip among those that the feed
      is made of. */
  lemma ChainHasClip(rows: seq<Row>, motion: seq<Clip>, footage: seq<Footage>, i: nat, b: seq<Item>, x: Item, y: Item)
    requires Recorded(footage) && AreMotionClips(footage, motion) && i < |footage| && IsChainOf(b, footage[i])
    requires x in b && y in b && y.end - x.start >= 1_000_000
    ensures exists c :: c in Feed(rows, motion) && StandsForChain(c, footage[i].camera, b)
  {
    var f := footage[i];
    var runs :| AreRunsOf(footage, runs) && motion == MotionClips(footage, runs);
    ChainHasRun(f, b, runs[i]);
    RunBounds(b);
    var c := MotionClip(f.camera, RunOf(b));
    LongRunStands(f.camera, b);
    ClipsOfRunsAre(f.camera, runs[i], c);
    MotionClipsHave(footage, runs, i, c);
    FeedHolds(rows, motion, c);
  }

  /** Every row that is not labelled motion has its clip in the feed. */
  lemma RowHasClip(rows: seq<Row>, motion: seq<Clip>, r: Row)
    requires r in rows && r.objectLabel != "motion"
    ensures exists c :: c in Feed(rows, motion) && StandsForRow(c, r)
  {
    var c := DetectionClip(r);
    assert StandsForRow(c, r);
    FeedHolds(rows, motion, c);
  }
}
