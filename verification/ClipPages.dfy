/** How the pages of the clip feed grow: clients ask for more by raising the limit, and the
    query may return rows of one instant in another order each time. */
module ClipPages {
  import opened ClipFeed
  import opened MotionRuns
  import opened Options
  import opened StableSort

  // ---- growth is a matter of the detections -----------------------------------

  /** A motion clip that began before every row. */
  lemma OlderClip(rows: seq<Row>) returns (m: Clip)
    ensures m.id.Motion? && forall i :: 0 <= i < |rows| ==> rows[i].ts > m.start
    decreases |rows|
  {
    if rows == [] {
      m := MotionClip(0, Run(0, 0, None));
    } else {
      var n := OlderClip(rows[1..]);
      var start := if n.start < rows[0].ts then n.start else rows[0].ts - 1;
      m := n.(start := start);
      assert forall i :: 0 < i < |rows| ==> rows[i] == rows[1..][i - 1];
    }
  }

  lemma FeedOfDetections(rows: seq<Row>)
    requires NewestFirst(rows)
    ensures Feed(rows, []) == DetectionClips(rows)
  {
    DetectionClipsSorted(rows);
    SortedIsSort(DetectionClips(rows));
    assert DetectionClips(rows) + [] == DetectionClips(rows);
  }

  lemma FeedWithOlder(rows: seq<Row>, m: Clip)
    requires NewestFirst(rows) && forall i :: 0 <= i < |rows| ==> rows[i].ts > m.start
    ensures Feed(rows, [m]) == DetectionClips(rows) + [m]
  {
    DetectionClipsSorted(rows);
    var clips := DetectionClips(rows);
    forall k | 0 <= k < |clips|
      ensures Newer(clips[k], m)
    {
      assert clips[k] in clips;
    }
    SortedIsSort(clips + [m]);
  }

  lemma {:induction false} NoMotionAmongDetections(rows: seq<Row>)
    ensures forall c :: c in DetectionClips(rows) ==> c.id.Detection?
    decreases |rows|
  {
    if rows != [] {
      NoMotionAmongDetections(rows[1..]);
    }
  }

  lemma DetectionsCarryPages(front: seq<Row>, more: seq<Row>, motion: seq<Clip>, limit: nat, larger: nat)
    requires NewestFirst(front) && NewestFirst(more) && limit <= larger
    requires DetectionClips(front) == Take(DetectionClips(more), limit)
    ensures Take(Feed(front, motion), limit) <= Take(Feed(more, motion), larger)
  {
    FeedIsMerge(front, motion);
    FeedIsMerge(more, motion);
    TakeOfMerge(DetectionClips(more), Sort(motion, Newer), limit, limit, Newer);
    FewerOfTake(Feed(more, motion), limit, larger);
  }

  lemma FeedIsMerge(rows: seq<Row>, motion: seq<Clip>)
    requires NewestFirst(rows)
    ensures Feed(rows, motion) == Merge(DetectionClips(rows), Sort(motion, Newer), Newer)
  {
    NewerIsPreorder();
    DetectionClipsSorted(rows);
    SortAppend(DetectionClips(rows), motion, Newer);
  }

  lemma FewerOfTake<T>(s: seq<T>, k: nat, n: nat)
    requires k <= n
    ensures Take(s, k) <= Take(s, n)
  {
  }

  lemma FewerShow(a: seq<Clip>, b: seq<Clip>, m: Clip, limit: nat, larger: nat)
    requires a <= b && a != Take(b, limit) && |a| <= limit <= larger && |b| <= larger && m !in b
    ensures !(Take(a + [m], limit) <= Take(b + [m], larger))
  {
    assert Take(a + [m], limit)[|a|] == m && Take(b + [m], larger)[|a|] == b[|a|];
  }

  lemma OlderThanBoth(front: seq<Row>, more: seq<Row>) returns (m: Clip)
    requires NewestFirst(front) && NewestFirst(more)
    ensures Feed(front, [m]) == DetectionClips(front) + [m] && Feed(more, [m]) == DetectionClips(more) + [m]
    ensures m !in DetectionClips(more)
  {
    m := OlderClip(front + more);
    assert forall i :: 0 <= i < |front| ==> front[i] == (front + more)[i];
    assert forall i :: 0 <= i < |more| ==> more[i] == (front + more)[|front| + i];
    FeedWithOlder(front, m);
    FeedWithOlder(more, m);
    NoMotionAmongDetections(more);
  }

  /** Other detections in front show without motion; fewer, with one clip older than all. */
  lemma OtherDetectionsShow(front: seq<Row>, more: seq<Row>, limit: nat, larger: nat) returns (motion: seq<Clip>)
    requires NewestFirst(front) && NewestFirst(more) && |front| <= limit <= larger && |more| <= larger
    requires DetectionClips(front) != Take(DetectionClips(more), limit)
    ensures !(Take(Feed(front, motion), limit) <= Take(Feed(more, motion), larger))
  {
    CountDetections(front);
    CountDetections(more);
    if DetectionClips(front) <= DetectionClips(more) {
      var m := OlderThanBoth(front, more);
      FewerShow(DetectionClips(front), DetectionClips(more), m, limit, larger);
      motion := [m];
    } else {
      FeedOfDetections(front);
      FeedOfDetections(more);
      motion := [];
    }
  }

  /** Whatever motion there was, one page extends the other exactly when its detections do. */
  lemma GrowthIsOfDetections(front: seq<Row>, more: seq<Row>, limit: nat, larger: nat)
    requires NewestFirst(front) && NewestFirst(more) && |front| <= limit <= larger && |more| <= larger
    ensures (forall motion :: Take(Feed(front, motion), limit) <= Take(Feed(more, motion), larger))
       <==> DetectionClips(front) == Take(DetectionClips(more), limit)
  {
    if DetectionClips(front) == Take(DetectionClips(more), limit) {
      forall motion
        ensures Take(Feed(front, motion), limit) <= Take(Feed(more, motion), larger)
      {
        DetectionsCarryPages(front, more, motion, limit, larger);
      }
    } else {
      var motion := OtherDetectionsShow(front, more, limit, larger);
    }
  }

  lemma FrontIsNewestFirst(rows: seq<Row>, limit: nat)
    requires NewestFirst(rows)
    ensures NewestFirst(Take(rows, limit)) && |Take(rows, limit)| <= limit
  {
  }

  // ---- one order of the rows --------------------------------------------------

  /** As long as the rows come back in the same order, every larger page extends this one
      exactly when no row labelled motion displaced a detection. */
  lemma PagesGrowExactly(rows: seq<Row>, limit: nat)
    requires NewestFirst(rows)
    ensures (forall motion, larger: nat :: limit <= larger ==> PageOf(rows, motion, limit) <= PageOf(rows, motion, larger))
       <==> NoneDisplaced(rows, limit)
  {
    FrontIsNewestFirst(rows, limit);
    PageDetectionsExactly(rows, limit);
    if NoneDisplaced(rows, limit) {
      forall motion, larger: nat | limit <= larger
        ensures PageOf(rows, motion, limit) <= PageOf(rows, motion, larger)
      {
        StillNoneDisplaced(rows, limit, larger);
        FrontIsNewestFirst(rows, larger);
        DetectionsCarryPages(Take(rows, limit), Take(rows, larger), motion, limit, larger);
      }
    } else {
      var motion := OtherDetectionsShow(Take(rows, limit), rows, limit, |rows|);
      assert PageOf(rows, motion, |rows|) == Take(Feed(rows, motion), |rows|);
    }
  }

  lemma StillNoneDisplaced(rows: seq<Row>, limit: nat, larger: nat)
    requires NoneDisplaced(rows, limit) && limit <= larger
    ensures DetectionClips(Take(rows, limit)) == Take(DetectionClips(Take(rows, larger)), limit)
  {
    var more := Take(rows, larger);
    assert Take(more, limit) == Take(rows, limit);
    if |more| > limit {
      assert more[..limit] == rows[..limit];
      assert forall i :: 0 <= i < |more| - limit ==> more[limit..][i] == rows[limit..][i];
    }
    PageDetectionsExactly(more, limit);
  }

  /** Without motion-labelled rows a larger limit only appends, and `total` exceeds the page
      exactly when there are more clips. */
  lemma PagesGrow(rows: seq<Row>, motion: seq<Clip>, limit: nat, larger: nat)
    requires NewestFirst(rows) && NoMotionLabels(rows) && limit <= larger
    ensures PageOf(rows, motion, limit) <= PageOf(rows, motion, larger)
    ensures |rows| + |motion| == |Feed(rows, motion)|
    ensures |rows| + |motion| > |PageOf(rows, motion, limit)|
       <==> PageOf(rows, motion, limit) != Feed(rows, motion)
  {
    PagesGrowExactly(rows, limit);
    PageIsExactly(rows, limit);
    TotalIsNeverLow(rows, motion);
    assert PageOf(rows, motion, limit) == Take(Feed(rows, motion), limit);
  }

  // ---- two queries ------------------------------------------------------------

  /** The same rows, as another query may return them. */
  ghost predicate Reorders(rows: seq<Row>, again: seq<Row>) {
    NewestFirst(again) && multiset(again) == multiset(rows)
  }

  /** The id is the key of the table. */
  ghost predicate DistinctIds(rows: seq<Row>) {
    forall i, j :: 0 <= i < j < |rows| ==> rows[i].id != rows[j].id
  }

  function CountSince(rows: seq<Row>, from: Instant): nat {
    if rows == [] then 0 else (if rows[0].ts >= from then 1 else 0) + CountSince(rows[1..], from)
  }

  lemma {:induction false} CountSinceAppend(a: seq<Row>, b: seq<Row>, from: Instant)
    ensures CountSince(a + b, from) == CountSince(a, from) + CountSince(b, from)
    decreases |a|
  {
    if a == [] {
      assert a + b == b;
    } else {
      CountSinceAppend(a[1..], b, from);
      assert (a + b)[0] == a[0] && (a + b)[1..] == a[1..] + b;
    }
  }

  lemma CountAround(front: seq<Row>, r: Row, rest: seq<Row>, from: Instant)
    ensures CountSince(front + [r] + rest, from) == CountSince(front + rest, from) + (if r.ts >= from then 1 else 0)
  {
    CountSinceAppend(front, rest, from);
    CountSinceAppend(front + [r], rest, from);
    CountSinceAppend(front, [r], from);
    assert [r][1..] == [];
  }

  lemma RowsWithoutOne(rows: seq<Row>, p: nat)
    requires p < |rows|
    ensures multiset(rows[..p] + rows[p + 1..]) == multiset(rows) - multiset{rows[p]}
  {
    assert rows == rows[..p] + [rows[p]] + rows[p + 1..];
  }

  lemma CountWithoutOne(rows: seq<Row>, p: nat, from: Instant)
    requires p < |rows|
    ensures CountSince(rows, from) == CountSince(rows[..p] + rows[p + 1..], from) + (if rows[p].ts >= from then 1 else 0)
  {
    assert rows == rows[..p] + [rows[p]] + rows[p + 1..];
    CountAround(rows[..p], rows[p], rows[p + 1..], from);
  }

  lemma {:induction false} CountSinceReordered(rows: seq<Row>, again: seq<Row>, from: Instant)
    requires multiset(again) == multiset(rows)
    ensures CountSince(again, from) == CountSince(rows, from)
    decreases |rows|
  {
    if rows == [] {
      assert |multiset(again)| == 0;
    } else {
      var p := Find(again, rows[0]);
      WithoutFirst(rows);
      RowsWithoutOne(again, p);
      CountWithoutOne(again, p, from);
      CountSinceReordered(rows[1..], again[..p] + again[p + 1..], from);
    }
  }

  lemma Find(rows: seq<Row>, r: Row) returns (p: nat)
    requires multiset(rows)[r] > 0
    ensures p < |rows| && rows[p] == r
  {
    assert r in rows;
    p :| 0 <= p < |rows| && rows[p] == r;
  }

  lemma WithoutFirst(rows: seq<Row>)
    requires rows != []
    ensures multiset(rows[1..]) == multiset(rows) - multiset{rows[0]} && multiset(rows)[rows[0]] > 0
  {
    assert rows == [rows[0]] + rows[1..];
  }

  lemma {:induction false} CountOfNewestFirst(rows: seq<Row>, from: Instant, k: nat)
    requires NewestFirst(rows) && k < |rows|
    ensures CountSince(rows, from) > k <==> rows[k].ts >= from
    decreases |rows|
  {
    if rows[0].ts < from {
      NoneSince(rows, from);
    } else if k > 0 {
      CountOfNewestFirst(rows[1..], from, k - 1);
    }
  }

  lemma {:induction false} NoneSince(rows: seq<Row>, from: Instant)
    requires forall i :: 0 <= i < |rows| ==> rows[i].ts < from
    ensures CountSince(rows, from) == 0
    decreases |rows|
  {
    if rows != [] {
      NoneSince(rows[1..], from);
    }
  }

  /** Position by position the instants are the same in every order. */
  lemma SameInstants(rows: seq<Row>, again: seq<Row>, k: nat)
    requires NewestFirst(rows) && Reorders(rows, again) && k < |rows|
    ensures |again| == |rows| && again[k].ts == rows[k].ts
  {
    assert |again| == |multiset(again)| == |multiset(rows)| == |rows|;
    CountSinceReordered(rows, again, rows[k].ts);
    CountSinceReordered(rows, again, again[k].ts);
    CountOfNewestFirst(rows, rows[k].ts, k);
    CountOfNewestFirst(again, rows[k].ts, k);
    CountOfNewestFirst(rows, again[k].ts, k);
    CountOfNewestFirst(again, again[k].ts, k);
  }

  /** The row that is now at position `k` has the instant of the one that was. */
  lemma CameFrom(rows: seq<Row>, again: seq<Row>, k: nat) returns (i: nat)
    requires NewestFirst(rows) && Reorders(rows, again) && k < |rows|
    ensures |again| == |rows| && i < |rows| && again[k] == rows[i] && rows[i].ts == rows[k].ts
  {
    SameInstants(rows, again, k);
    assert again[k] in multiset(again);
    i := Find(rows, again[k]);
  }

  /** No two rows of the same instant. */
  ghost predicate NoTies(rows: seq<Row>) {
    forall i, j :: 0 <= i < j < |rows| ==> rows[i].ts != rows[j].ts
  }

  /** The order of the query is then determined. */
  lemma OrderIsDetermined(rows: seq<Row>, again: seq<Row>)
    requires NewestFirst(rows) && NewestFirst(again) && NoTies(rows) && multiset(rows) == multiset(again)
    ensures rows == again
  {
    assert |again| == |multiset(again)| == |multiset(rows)| == |rows|;
    forall k | 0 <= k < |rows|
      ensures again[k] == rows[k]
    {
      var i := CameFrom(rows, again, k);
    }
  }

  // ---- what ties do -----------------------------------------------------------

  /** Two rows of one instant, the earlier a detection of the page: the other way round the
      detections change places, or the first one leaves the page. */
  predicate TieDisturbs(rows: seq<Row>, limit: nat, i: nat, j: nat)
    requires i < j < |rows|
  {
    i < limit && rows[i].ts == rows[j].ts && !IsMotionLabel(rows[i]) && (j >= limit || !IsMotionLabel(rows[j]))
  }

  ghost predicate NoTieDisturbs(rows: seq<Row>, limit: nat) {
    forall i, j :: 0 <= i < j < |rows| ==> !TieDisturbs(rows, limit, i, j)
  }

  function Swapped(rows: seq<Row>, i: nat, j: nat): seq<Row>
    requires i < j < |rows|
  {
    rows[i := rows[j]][j := rows[i]]
  }

  lemma SwappedReorders(rows: seq<Row>, i: nat, j: nat)
    requires i < j < |rows| && rows[i].ts == rows[j].ts && NewestFirst(rows)
    ensures Reorders(rows, Swapped(rows, i, j))
  {
    var again := Swapped(rows, i, j);
    assert forall k :: 0 <= k < |rows| ==> again[k].ts == rows[k].ts;
  }

  lemma {:induction false} DetectionsCome(rows: seq<Row>)
    ensures forall c :: c in DetectionClips(rows) ==> exists r :: r in rows && c == DetectionClip(r)
    decreases |rows|
  {
    if rows != [] {
      DetectionsCome(rows[1..]);
    }
  }

  lemma SplitAtDetection(rows: seq<Row>, i: nat)
    requires i < |rows| && !IsMotionLabel(rows[i])
    ensures DetectionClips(rows) ==
            DetectionClips(rows[..i]) + ([DetectionClip(rows[i])] + DetectionClips(rows[i + 1..]))
  {
    assert rows == rows[..i] + rows[i..];
    DetectionClipsAppend(rows[..i], rows[i..]);
    assert rows[i..][1..] == rows[i + 1..];
  }

  /** A detection whose place is beyond the page does not come back in it. */
  lemma SwappedOut(rows: seq<Row>, limit: nat, i: nat, j: nat)
    requires i < limit <= j < |rows| && DistinctIds(rows)
    ensures DetectionClip(rows[i]) !in DetectionClips(Take(Swapped(rows, i, j), limit)[i..])
  {
    var left := Take(Swapped(rows, i, j), limit)[i..];
    DetectionsCome(left);
    forall r | r in left
      ensures DetectionClip(r) != DetectionClip(rows[i])
    {
      var k :| 0 <= k < |left| && left[k] == r;
      assert r == rows[if k == 0 then j else i + k];
    }
  }

  lemma DetectionAt(rows: seq<Row>, i: nat)
    requires i < |rows| && !IsMotionLabel(rows[i])
    ensures |DetectionClips(rows)| > |DetectionClips(rows[..i])|
    ensures DetectionClips(rows)[|DetectionClips(rows[..i])|] == DetectionClip(rows[i])
  {
    SplitAtDetection(rows, i);
  }

  /** What stands behind the detections of the first `i` rows is a detection of the others. */
  lemma DetectionBehind(rows: seq<Row>, i: nat)
    requires i <= |rows| && |DetectionClips(rows)| > |DetectionClips(rows[..i])|
    ensures DetectionClips(rows)[|DetectionClips(rows[..i])|] in DetectionClips(rows[i..])
  {
    assert rows == rows[..i] + rows[i..];
    DetectionClipsAppend(rows[..i], rows[i..]);
  }

  /** After the swap the detections of the page are others. */
  lemma SwapShows(rows: seq<Row>, limit: nat, i: nat, j: nat)
    requires i < j < |rows| && DistinctIds(rows) && TieDisturbs(rows, limit, i, j)
    ensures DetectionClips(Take(rows, limit)) != DetectionClips(Take(Swapped(rows, i, j), limit))
  {
    var front, front' := Take(rows, limit), Take(Swapped(rows, i, j), limit);
    assert front'[..i] == front[..i];
    DetectionAt(front, i);
    if j < limit {
      DetectionAt(front', i);
    } else {
      SwappedOut(rows, limit, i, j);
      if |DetectionClips(front')| == |DetectionClips(front)| {
        DetectionBehind(front', i);
      }
    }
  }

  /** A tie that disturbs the page can come back so that even the page of the same size is
      another one. */
  lemma TiesMaySwap(rows: seq<Row>, limit: nat, i: nat, j: nat) returns (again: seq<Row>, motion: seq<Clip>)
    requires NewestFirst(rows) && DistinctIds(rows) && i < j < |rows| && TieDisturbs(rows, limit, i, j)
    ensures Reorders(rows, again) && !(PageOf(rows, motion, limit) <= PageOf(again, motion, limit))
  {
    again := Swapped(rows, i, j);
    SwappedReorders(rows, i, j);
    SwapShows(rows, limit, i, j);
    FrontIsNewestFirst(rows, limit);
    FrontIsNewestFirst(again, limit);
    DetectionClipsSorted(Take(again, limit));
    motion := OtherDetectionsShow(Take(rows, limit), Take(again, limit), limit, limit);
  }

  // ---- and what they leave alone ----------------------------------------------

  /** Rows that tie with no other keep their places. */
  lemma UntiedFrontStays(rows: seq<Row>, again: seq<Row>, limit: nat)
    requires NewestFirst(rows) && Reorders(rows, again)
    requires forall i, j :: 0 <= i < j < |rows| && i < limit ==> rows[i].ts != rows[j].ts
    ensures |again| == |rows| && Take(again, limit) == Take(rows, limit)
  {
    assert |again| == |multiset(again)| == |multiset(rows)| == |rows|;
    forall k | 0 <= k < |rows| && k < limit
      ensures again[k] == rows[k]
    {
      var i := CameFrom(rows, again, k);
    }
  }

  function Detections(rows: seq<Row>): seq<Row> {
    if rows == [] then []
    else (if IsMotionLabel(rows[0]) then [] else [rows[0]]) + Detections(rows[1..])
  }

  lemma {:induction false} ClipsOfDetections(rows: seq<Row>)
    ensures DetectionClips(Detections(rows)) == DetectionClips(rows)
    decreases |rows|
  {
    if rows != [] {
      ClipsOfDetections(rows[1..]);
      var rest := Detections(rows[1..]);
      assert ([rows[0]] + rest)[1..] == rest && [] + rest == rest;
      assert [] + DetectionClips(rows[1..]) == DetectionClips(rows[1..]);
    }
  }

  lemma {:induction false} CountOfDetections(rows: seq<Row>, r: Row)
    ensures multiset(Detections(rows))[r] == if IsMotionLabel(r) then 0 else multiset(rows)[r]
    decreases |rows|
  {
    if rows != [] {
      CountOfDetections(rows[1..], r);
      WithoutFirst(rows);
    }
  }

  /** Of two detections in the list neither ties with the other. */
  ghost predicate DetectionsUntied(rows: seq<Row>) {
    forall i, j :: 0 <= i < j < |rows| && !IsMotionLabel(rows[i]) && !IsMotionLabel(rows[j]) ==> rows[i].ts != rows[j].ts
  }

  lemma UntiedRest(rows: seq<Row>)
    requires rows != [] && NewestFirst(rows) && DetectionsUntied(rows)
    ensures NewestFirst(rows[1..]) && DetectionsUntied(rows[1..])
    ensures !IsMotionLabel(rows[0]) ==> forall r :: r in rows[1..] && !IsMotionLabel(r) ==> rows[0].ts > r.ts
  {
    forall r | r in rows[1..] && !IsMotionLabel(r)
      ensures !IsMotionLabel(rows[0]) ==> rows[0].ts > r.ts
    {
      var i :| 0 <= i < |rows[1..]| && rows[1..][i] == r;
      assert rows[i + 1] == r;
    }
  }

  lemma InFront(r: Row, rest: seq<Row>)
    requires NewestFirst(rest) && NoTies(rest) && forall q :: q in rest ==> r.ts > q.ts
    ensures NewestFirst([r] + rest) && NoTies([r] + rest)
  {
  }

  lemma {:induction false} DetectionsInOrder(rows: seq<Row>)
    requires NewestFirst(rows) && DetectionsUntied(rows)
    ensures NewestFirst(Detections(rows)) && NoTies(Detections(rows))
    ensures forall r :: r in Detections(rows) ==> r in rows && !IsMotionLabel(r)
    decreases |rows|
  {
    if rows != [] {
      UntiedRest(rows);
      DetectionsInOrder(rows[1..]);
      assert forall r :: r in rows[1..] ==> r in rows;
      if IsMotionLabel(rows[0]) {
        assert Detections(rows) == Detections(rows[1..]);
      } else {
        InFront(rows[0], Detections(rows[1..]));
      }
    }
  }

  /** Detections that do not tie come back in their order, whatever rows lie between. */
  lemma UntiedDetectionsStay(rows: seq<Row>, again: seq<Row>)
    requires NewestFirst(rows) && Reorders(rows, again) && DetectionsUntied(rows) && DetectionsUntied(again)
    ensures DetectionClips(again) == DetectionClips(rows)
  {
    DetectionsInOrder(rows);
    DetectionsInOrder(again);
    forall r
      ensures multiset(Detections(rows))[r] == multiset(Detections(again))[r]
    {
      CountOfDetections(rows, r);
      CountOfDetections(again, r);
    }
    OrderIsDetermined(Detections(rows), Detections(again));
    ClipsOfDetections(rows);
    ClipsOfDetections(again);
  }

  /** All rows beyond the first `limit` are labelled motion. */
  ghost predicate OnlyLabelsAfter(rows: seq<Row>, limit: nat) {
    forall k :: limit <= k < |rows| ==> IsMotionLabel(rows[k])
  }

  lemma LabelsAddNothing(rows: seq<Row>, limit: nat)
    requires OnlyLabelsAfter(rows, limit)
    ensures NoneDisplaced(rows, limit) && DetectionClips(Take(rows, limit)) == DetectionClips(rows)
  {
    if |rows| > limit {
      assert rows == rows[..limit] + rows[limit..];
      DetectionClipsAppend(rows[..limit], rows[limit..]);
      CountDetections(rows[limit..]);
      assert OnlyMotionLabels(rows[limit..]);
    }
  }

  lemma LabelsStayBehind(rows: seq<Row>, again: seq<Row>, limit: nat)
    requires NewestFirst(rows) && Reorders(rows, again) && OnlyLabelsAfter(rows, limit) && NoTieDisturbs(rows, limit)
    ensures OnlyLabelsAfter(again, limit)
  {
    assert |again| == |multiset(again)| == |multiset(rows)| == |rows|;
    forall k | limit <= k < |again|
      ensures IsMotionLabel(again[k])
    {
      var i := CameFrom(rows, again, k);
      assert i < k ==> !TieDisturbs(rows, limit, i, k);
    }
  }

  lemma DetectionsStayUntied(rows: seq<Row>, again: seq<Row>, limit: nat)
    requires NewestFirst(rows) && Reorders(rows, again) && DistinctIds(rows)
    requires OnlyLabelsAfter(rows, limit) && NoTieDisturbs(rows, limit)
    ensures DetectionsUntied(rows) && DetectionsUntied(again)
  {
    forall i, j | 0 <= i < j < |rows| && !IsMotionLabel(rows[i]) && !IsMotionLabel(rows[j])
      ensures rows[i].ts != rows[j].ts
    {
      assert !TieDisturbs(rows, limit, i, j);
    }
    assert |again| == |multiset(again)| == |multiset(rows)| == |rows|;
    forall i, j | 0 <= i < j < |again| && !IsMotionLabel(again[i]) && !IsMotionLabel(again[j])
      ensures again[i].ts != again[j].ts
    {
      var m := CameFrom(rows, again, i);
      var n := CameFrom(rows, again, j);
      OnceOnly(rows, again, i, j);
      assert rows[m] != rows[n] && (if m < n then rows[m].ts != rows[n].ts else rows[n].ts != rows[m].ts);
    }
  }

  lemma OnceOnly(rows: seq<Row>, again: seq<Row>, i: nat, j: nat)
    requires multiset(again) == multiset(rows) && DistinctIds(rows) && i < j < |again|
    ensures again[i] != again[j]
  {
    var r := again[i];
    if again[j] == r {
      assert again == again[..i] + [r] + again[i + 1..j] + [r] + again[j + 1..];
      assert multiset(again)[r] >= 2;
      AtMostOnce(rows, r);
    }
  }

  lemma {:induction false} AtMostOnce(rows: seq<Row>, r: Row)
    requires DistinctIds(rows)
    ensures multiset(rows)[r] <= 1
    decreases |rows|
  {
    if rows != [] {
      WithoutFirst(rows);
      AtMostOnce(rows[1..], r);
      assert forall i :: 0 < i < |rows| ==> rows[i] == rows[1..][i - 1];
      assert rows[0] !in rows[1..];
    }
  }

  /** The page has the same detections in every order, and a larger one extends them. */
  lemma UndisturbedDetections(rows: seq<Row>, again: seq<Row>, limit: nat, larger: nat)
    requires NewestFirst(rows) && Reorders(rows, again) && DistinctIds(rows) && limit <= larger
    requires NoneDisplaced(rows, limit) && NoTieDisturbs(rows, limit)
    ensures DetectionClips(Take(rows, limit)) == Take(DetectionClips(Take(again, larger)), limit)
  {
    if NoMotionLabels(Take(rows, limit)) {
      forall i, j | 0 <= i < j < |rows| && i < limit
        ensures rows[i].ts != rows[j].ts
      {
        assert rows[i] == Take(rows, limit)[i] && (j < limit ==> rows[j] == Take(rows, limit)[j]);
        assert !TieDisturbs(rows, limit, i, j);
      }
      UntiedFrontStays(rows, again, limit);
    } else {
      assert forall k :: limit <= k < |rows| ==> rows[k] == rows[limit..][k - limit];
      assert OnlyLabelsAfter(rows, limit);
      LabelsStayBehind(rows, again, limit);
      LabelsAddNothing(rows, limit);
      LabelsAddNothing(again, limit);
      DetectionsStayUntied(rows, again, limit);
      UntiedDetectionsStay(rows, again);
    }
    StillNoneDisplaced(again, limit, larger);
  }

  // ---- the theorem ------------------------------------------------------------

  /** In whatever order the rows of one instant come back each time, and whatever motion there
      was, every larger page extends this one exactly when no row labelled motion displaced a
      detection and no tie disturbs the page. */
  lemma PagesGrowAcrossQueriesExactly(rows: seq<Row>, limit: nat)
    requires NewestFirst(rows) && DistinctIds(rows)
    ensures (forall again, motion, larger: nat :: Reorders(rows, again) && limit <= larger ==>
               PageOf(rows, motion, limit) <= PageOf(again, motion, larger))
       <==> NoneDisplaced(rows, limit) && NoTieDisturbs(rows, limit)
  {
    if !NoneDisplaced(rows, limit) {
      PagesGrowExactly(rows, limit);
      assert Reorders(rows, rows);
    } else if !NoTieDisturbs(rows, limit) {
      var i: nat, j: nat :| i < j < |rows| && TieDisturbs(rows, limit, i, j);
      var again, motion := TiesMaySwap(rows, limit, i, j);
    } else {
      forall again, motion, larger: nat | Reorders(rows, again) && limit <= larger
        ensures PageOf(rows, motion, limit) <= PageOf(again, motion, larger)
      {
        UndisturbedDetections(rows, again, limit, larger);
        FrontIsNewestFirst(rows, limit);
        FrontIsNewestFirst(again, larger);
        DetectionsCarryPages(Take(rows, limit), Take(again, larger), motion, limit, larger);
      }
    }
  }

  /** Without rows labelled motion: exactly when no row of the page has the instant of a later
      one, in the page or beyond it. */
  lemma OnlyTiesMatter(rows: seq<Row>, limit: nat)
    requires NewestFirst(rows) && DistinctIds(rows) && NoMotionLabels(rows)
    ensures (forall again, motion, larger: nat :: Reorders(rows, again) && limit <= larger ==>
               PageOf(rows, motion, limit) <= PageOf(again, motion, larger))
       <==> forall i, j :: 0 <= i < j < |rows| && i < limit ==> rows[i].ts != rows[j].ts
  {
    PagesGrowAcrossQueriesExactly(rows, limit);
    assert forall i, j :: 0 <= i < j < |rows| ==>
      (TieDisturbs(rows, limit, i, j) <==> i < limit && rows[i].ts == rows[j].ts);
  }

  /** So without ties a page of a later query with a larger limit extends the earlier page. */
  lemma PagesGrowAcrossQueries(rows: seq<Row>, again: seq<Row>, motion: seq<Clip>, limit: nat, larger: nat)
    requires NewestFirst(rows) && NewestFirst(again) && multiset(rows) == multiset(again)
    requires NoTies(rows) && NoMotionLabels(rows) && limit <= larger
    ensures PageOf(rows, motion, limit) <= PageOf(again, motion, larger)
  {
    OrderIsDetermined(rows, again);
    PagesGrowExactly(rows, limit);
  }
}
