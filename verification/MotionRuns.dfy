/** Merging motion segments into motion events. Instants are whole microseconds, the
    resolution of the database. */
module MotionRuns {
  import opened Options

  type Instant = int
  datatype Bbox = Bbox(x: real, y: real, w: real, h: real)
  datatype Item = Item(start: Instant, end: Instant, hasMotion: bool, bbox: Option<Bbox>)
  datatype Run = Run(start: Instant, end: Instant, bbox: Option<Bbox>)

  const MERGE_GAP_MS := 30_000
  const MIN_DURATION_MS := 1_000

  /** A duration in whole milliseconds, truncated toward zero. */
  function Milliseconds(d: int): int {
    if d >= 0 then d / 1000 else -((-d) / 1000)
  }

  /** `y` begins soon enough after the end of `x` to belong to the same event. */
  predicate Near(x: Item, y: Item) {
    Milliseconds(y.start - x.end) <= MERGE_GAP_MS
  }

  /** Truncation makes the allowed gap one millisecond, less a microsecond, longer than its
      name says, and leaves the least duration as it is. */
  lemma BoundsInMicroseconds(x: Item, y: Item, r: Run)
    ensures Near(x, y) <==> y.start - x.end < 30_001_000
    ensures LongEnough(r) <==> r.end - r.start >= 1_000_000
  {
  }

  predicate LongEnough(r: Run) {
    Milliseconds(r.end - r.start) >= MIN_DURATION_MS
  }

  function WithMotion(items: seq<Item>): seq<Item> {
    if items == [] then []
    else if items[0].hasMotion then [items[0]] + WithMotion(items[1..])
    else WithMotion(items[1..])
  }

  predicate SortedByStart(items: seq<Item>) {
    forall i, j :: 0 <= i < j < |items| ==> items[i].start <= items[j].start
  }

  // ---- what the events of a day are -------------------------------------------

  /** Every segment but the first is near an earlier one of the chain. */
  ghost predicate Linked(b: seq<Item>) {
    b != [] && forall j :: 0 < j < |b| ==> NearAnEarlier(b, j)
  }

  ghost predicate NearAnEarlier(b: seq<Item>, j: nat)
    requires j < |b|
  {
    exists i :: 0 <= i < j && Near(b[i], b[j])
  }

  /** No segment of one chain is near any segment of a later chain. */
  ghost predicate Apart(a: seq<Item>, b: seq<Item>) {
    forall x, y :: x in a && y in b ==> !Near(x, y)
  }

  function Flatten(bs: seq<seq<Item>>): seq<Item> {
    if bs == [] then [] else bs[0] + Flatten(bs[1..])
  }

  /** The motion segments cut into chains. */
  ghost predicate Chains(bs: seq<seq<Item>>, m: seq<Item>) {
    && Flatten(bs) == m
    && (forall k :: 0 <= k < |bs| ==> Linked(bs[k]))
    && forall k, l :: 0 <= k < l < |bs| ==> Apart(bs[k], bs[l])
  }

  function MaxEnd(b: seq<Item>): Instant
    requires b != []
  {
    if |b| == 1 then b[0].end
    else var e := MaxEnd(b[..|b| - 1]); if b[|b| - 1].end > e then b[|b| - 1].end else e
  }

  function FirstBbox(b: seq<Item>): Option<Bbox> {
    if b == [] then None
    else if FirstBbox(b[..|b| - 1]).Some? then FirstBbox(b[..|b| - 1])
    else b[|b| - 1].bbox
  }

  function RunOf(b: seq<Item>): Run
    requires b != []
  {
    Run(b[0].start, MaxEnd(b), FirstBbox(b))
  }

  ghost predicate RunsOf(bs: seq<seq<Item>>, runs: seq<Run>) {
    && |runs| == |bs|
    && forall k :: 0 <= k < |bs| ==> bs[k] != [] && runs[k] == RunOf(bs[k])
  }

  function LongRuns(runs: seq<Run>): seq<Run> {
    if runs == [] then []
    else if LongEnough(runs[0]) then [runs[0]] + LongRuns(runs[1..])
    else LongRuns(runs[1..])
  }

  /** `result` lists the chains that last long enough, one run for each. */
  ghost predicate AreMotionRuns(items: seq<Item>, result: seq<Run>) {
    exists bs: seq<seq<Item>>, runs: seq<Run> ::
      Chains(bs, WithMotion(items)) && RunsOf(bs, runs) && result == LongRuns(runs)
  }

  lemma {:induction false} MaxEndIsGreatest(b: seq<Item>)
    requires b != []
    ensures forall x :: x in b ==> x.end <= MaxEnd(b)
    ensures exists i :: 0 <= i < |b| && b[i].end == MaxEnd(b)
    decreases |b|
  {
    if |b| > 1 {
      var front := b[..|b| - 1];
      MaxEndIsGreatest(front);
      assert b == front + [b[|b| - 1]];
      var i :| 0 <= i < |front| && front[i].end == MaxEnd(front);
      assert b[i].end == MaxEnd(front);
    } else {
      assert b == [b[0]];
    }
  }

  /** The region of a run is the earliest one captured in it. */
  lemma {:induction false} FirstBboxIsEarliest(b: seq<Item>)
    ensures FirstBbox(b).None? <==> forall i :: 0 <= i < |b| ==> b[i].bbox.None?
    ensures FirstBbox(b).Some? ==> exists i :: 0 <= i < |b| && b[i].bbox == FirstBbox(b)
                                               && forall k :: 0 <= k < i ==> b[k].bbox.None?
    decreases |b|
  {
    if b != [] {
      var front := b[..|b| - 1];
      FirstBboxIsEarliest(front);
      assert forall i :: 0 <= i < |front| ==> front[i] == b[i];
    }
  }

  /** A run's bounds are the least start and the greatest end of its segments. */
  lemma RunBounds(b: seq<Item>)
    requires b != [] && SortedByStart(b)
    ensures forall x :: x in b ==> RunOf(b).start <= x.start && x.end <= RunOf(b).end
    ensures exists x :: x in b && x.start == RunOf(b).start
    ensures exists x :: x in b && x.end == RunOf(b).end
  {
    MaxEndIsGreatest(b);
    assert b[0] in b;
    var i :| 0 <= i < |b| && b[i].end == MaxEnd(b);
    assert b[i] in b;
  }

  // ---- the cut is unique ------------------------------------------------------

  lemma NoEmptyChains(bs: seq<seq<Item>>, m: seq<Item>)
    requires Chains(bs, m)
    ensures bs == [] <==> m == []
    ensures bs != [] ==> bs[0] != [] && bs[0] <= m && Chains(bs[1..], m[|bs[0]|..])
  {
    if bs != [] {
      assert m == bs[0] + Flatten(bs[1..]);
      assert Linked(bs[0]);
    }
  }

  /** The segment after the first chain is near none of its segments. */
  lemma FarFromFirst(xs: seq<seq<Item>>, m: seq<Item>)
    requires xs != [] && Chains(xs, m) && |xs[0]| < |m|
    ensures forall i :: 0 <= i < |xs[0]| ==> !Near(m[i], m[|xs[0]|])
  {
    var n := |xs[0]|;
    NoEmptyChains(xs, m);
    NoEmptyChains(xs[1..], m[n..]);
    assert m[n] == xs[1][0] && Apart(xs[0], xs[1]);
    forall i | 0 <= i < n
      ensures !Near(m[i], m[n])
    {
      assert m[i] == xs[0][i];
    }
  }

  lemma FirstChainFits(xs: seq<seq<Item>>, bs: seq<seq<Item>>, m: seq<Item>)
    requires xs != [] && bs != [] && Chains(xs, m) && Chains(bs, m)
    ensures |xs[0]| >= |bs[0]|
  {
    NoEmptyChains(xs, m);
    NoEmptyChains(bs, m);
    assert Linked(bs[0]);
    assert forall i :: 0 <= i < |bs[0]| ==> bs[0][i] == m[i];
    assert 0 < |xs[0]| < |bs[0]| ==> NearAnEarlier(bs[0], |xs[0]|);
    if |xs[0]| < |m| {
      FarFromFirst(xs, m);
    }
  }

  /** The segments can be cut into such chains in only one way. */
  lemma {:induction false} ChainsAreUnique(xs: seq<seq<Item>>, bs: seq<seq<Item>>, m: seq<Item>)
    requires Chains(xs, m) && Chains(bs, m)
    ensures xs == bs
    decreases |xs|
  {
    NoEmptyChains(xs, m);
    NoEmptyChains(bs, m);
    if xs != [] {
      FirstChainFits(xs, bs, m);
      FirstChainFits(bs, xs, m);
      ChainsAreUnique(xs[1..], bs[1..], m[|xs[0]|..]);
      assert xs == [xs[0]] + xs[1..] && bs == [bs[0]] + bs[1..];
    }
  }

  lemma ResultIsUnique(items: seq<Item>, r: seq<Run>, r': seq<Run>)
    requires AreMotionRuns(items, r) && AreMotionRuns(items, r')
    ensures r == r'
  {
    var bs: seq<seq<Item>>, runs: seq<Run> :| Chains(bs, WithMotion(items)) && RunsOf(bs, runs) && r == LongRuns(runs);
    var bs': seq<seq<Item>>, runs': seq<Run> :| Chains(bs', WithMotion(items)) && RunsOf(bs', runs') && r' == LongRuns(runs');
    ChainsAreUnique(bs, bs', WithMotion(items));
    assert runs == runs';
  }

  // ---- the algorithm ----------------------------------------------------------

  lemma {:induction false} FlattenAppend(bs: seq<seq<Item>>, b: seq<Item>)
    ensures Flatten(bs + [b]) == Flatten(bs) + b
    decreases |bs|
  {
    if bs == [] {
      assert Flatten([b]) == b + Flatten([b][1..]);
    } else {
      FlattenAppend(bs[1..], b);
      assert (bs + [b])[1..] == bs[1..] + [b];
    }
  }

  lemma {:induction false} WithMotionAppend(items: seq<Item>, x: Item)
    ensures WithMotion(items + [x]) == WithMotion(items) + if x.hasMotion then [x] else []
    decreases |items|
  {
    if items != [] {
      WithMotionAppend(items[1..], x);
      assert (items + [x])[1..] == items[1..] + [x];
    }
  }

  lemma {:induction false} InFlatten(bs: seq<seq<Item>>, k: nat, x: Item)
    requires k < |bs| && x in bs[k]
    ensures x in Flatten(bs)
    decreases k
  {
    if k > 0 {
      InFlatten(bs[1..], k - 1, x);
    }
  }

  /** No segment seen so far starts after `x`. */
  ghost predicate AllBefore(m: seq<Item>, x: Item) {
    forall y :: y in m ==> y.start <= x.start
  }

  lemma ChainsSnoc(front: seq<seq<Item>>, m: seq<Item>, b: seq<Item>)
    requires Chains(front, m) && Linked(b)
    requires forall k :: 0 <= k < |front| ==> Apart(front[k], b)
    ensures Chains(front + [b], m + b)
  {
    FlattenAppend(front, b);
  }

  lemma ChainsFront(front: seq<seq<Item>>, last: seq<Item>, m: seq<Item>)
    requires Chains(front + [last], m)
    ensures m == Flatten(front) + last && Chains(front, Flatten(front)) && Linked(last)
    ensures forall k :: 0 <= k < |front| ==> Apart(front[k], last)
  {
    FlattenAppend(front, last);
    var bs := front + [last];
    assert bs[|front|] == last && forall k :: 0 <= k < |front| ==> bs[k] == front[k];
  }

  lemma LinkedJoin(b: seq<Item>, x: Item, e: nat)
    requires Linked(b) && e < |b| && Near(b[e], x)
    ensures Linked(b + [x])
  {
    var c := b + [x];
    forall j | 0 < j < |c|
      ensures NearAnEarlier(c, j)
    {
      if j < |b| {
        assert NearAnEarlier(b, j);
        var i :| 0 <= i < j && Near(b[i], b[j]);
        assert Near(c[i], c[j]);
      } else {
        assert Near(c[e], c[j]);
      }
    }
  }

  /** What is far from the head of a chain is far from everything after it. */
  lemma ApartFromLater(a: seq<Item>, b: seq<Item>, x: Item)
    requires b != [] && Apart(a, b) && b[0].start <= x.start
    ensures Apart(a, [x]) && Apart(a, b + [x])
  {
    assert b[0] in b;
    assert forall y :: y in a ==> !Near(y, b[0]);
    assert forall y :: y in b + [x] ==> y in b || y == x;
  }

  lemma JoinLast(front: seq<seq<Item>>, last: seq<Item>, m: seq<Item>, x: Item)
    requires Chains(front + [last], m) && AllBefore(m, x)
    requires last != [] && Milliseconds(x.start - MaxEnd(last)) <= MERGE_GAP_MS
    ensures Chains(front + [last + [x]], m + [x])
  {
    ChainsFront(front, last, m);
    MaxEndIsGreatest(last);
    var e :| 0 <= e < |last| && last[e].end == MaxEnd(last);
    LinkedJoin(last, x, e);
    assert last[0] in m;
    forall k | 0 <= k < |front|
      ensures Apart(front[k], last + [x])
    {
      ApartFromLater(front[k], last, x);
    }
    ChainsSnoc(front, Flatten(front), last + [x]);
    assert Flatten(front) + (last + [x]) == m + [x];
  }

  lemma StartNew(front: seq<seq<Item>>, last: seq<Item>, m: seq<Item>, x: Item)
    requires Chains(front + [last], m) && AllBefore(m, x)
    requires last != [] && Milliseconds(x.start - MaxEnd(last)) > MERGE_GAP_MS
    ensures Chains(front + [last] + [[x]], m + [x])
  {
    ChainsFront(front, last, m);
    MaxEndIsGreatest(last);
    assert Apart(last, [x]);
    assert last[0] in m;
    forall k | 0 <= k < |front|
      ensures Apart(front[k], [x])
    {
      ApartFromLater(front[k], last, x);
    }
    ChainsSnoc(front + [last], m, [x]);
  }

  lemma RunOfOne(x: Item)
    ensures RunOf([x]) == Run(x.start, x.end, x.bbox)
  {
    var b := [x];
    assert b[..|b| - 1] == [] && FirstBbox([]) == None;
  }

  method KeepLongRuns(runs: seq<Run>) returns (result: seq<Run>)
    ensures result == LongRuns(runs)
  {
    result := [];
    for i := 0 to |runs|
      invariant result + LongRuns(runs[i..]) == LongRuns(runs)
    {
      assert runs[i..][1..] == runs[i + 1..];
      if LongEnough(runs[i]) {
        result := result + [runs[i]];
      }
    }
  }

  /** The runs after a segment that is near the last of them. */
  lemma Joined(bs: seq<seq<Item>>, runs: seq<Run>, m: seq<Item>, x: Item, n: nat)
    requires Chains(bs, m) && RunsOf(bs, runs) && AllBefore(m, x) && |runs| == n + 1
    requires Milliseconds(x.start - runs[n].end) <= MERGE_GAP_MS
    ensures bs[n] != [] && runs[n] == RunOf(bs[n])
    ensures Chains(bs[..n] + [bs[n] + [x]], m + [x])
    ensures RunsOf(bs[..n] + [bs[n] + [x]], runs[n := RunOf(bs[n] + [x])])
  {
    assert bs == bs[..n] + [bs[n]] && Linked(bs[n]);
    JoinLast(bs[..n], bs[n], m, x);
  }

  /** The runs after a segment that is near none of them. */
  lemma Started(bs: seq<seq<Item>>, runs: seq<Run>, m: seq<Item>, x: Item)
    requires Chains(bs, m) && RunsOf(bs, runs) && AllBefore(m, x)
    requires runs == [] || Milliseconds(x.start - runs[|runs| - 1].end) > MERGE_GAP_MS
    ensures Chains(bs + [[x]], m + [x])
    ensures RunsOf(bs + [[x]], runs + [Run(x.start, x.end, x.bbox)])
  {
    RunOfOne(x);
    if runs == [] {
      ChainsSnoc(bs, m, [x]);
    } else {
      var n := |runs| - 1;
      assert bs == bs[..n] + [bs[n]] && Linked(bs[n]);
      StartNew(bs[..n], bs[n], m, x);
    }
  }

  method MotionRuns(items: seq<Item>) returns (result: seq<Run>)
    requires SortedByStart(WithMotion(items))
    ensures AreMotionRuns(items, result)
  {
    var runs: seq<Run> := [];
    ghost var bs: seq<seq<Item>> := [];
    for i := 0 to |items|
      invariant Chains(bs, WithMotion(items[..i])) && RunsOf(bs, runs)
    {
      var x := items[i];
      ghost var m := WithMotion(items[..i]);
      assert items[..i + 1] == items[..i] + [x];
      WithMotionAppend(items[..i], x);
      if x.hasMotion {
        MotionPrefix(items, i);
        var n := |runs| - 1;
        if runs != [] && Milliseconds(x.start - runs[n].end) <= MERGE_GAP_MS {
          Joined(bs, runs, m, x, n);
          var last := runs[n];
          if x.end > last.end {
            last := last.(end := x.end);
          }
          if last.bbox.None? {
            last := last.(bbox := x.bbox);
          }
          runs := runs[n := last];
          bs := bs[..n] + [bs[n] + [x]];
        } else {
          Started(bs, runs, m, x);
          runs := runs + [Run(x.start, x.end, x.bbox)];
          bs := bs + [[x]];
        }
      }
    }
    assert items[..|items|] == items;
    result := KeepLongRuns(runs);
  }

  lemma {:induction false} WithMotionConcat(a: seq<Item>, b: seq<Item>)
    ensures WithMotion(a + b) == WithMotion(a) + WithMotion(b)
    decreases |a|
  {
    if a == [] {
      assert a + b == b;
    } else {
      WithMotionConcat(a[1..], b);
      assert (a + b)[1..] == a[1..] + b;
    }
  }

  lemma MotionPrefix(items: seq<Item>, i: nat)
    requires i < |items| && items[i].hasMotion && SortedByStart(WithMotion(items))
    ensures AllBefore(WithMotion(items[..i]), items[i])
  {
    var before, rest := WithMotion(items[..i]), WithMotion(items[i..]);
    WithMotionConcat(items[..i], items[i..]);
    assert items == items[..i] + items[i..];
    assert rest[0] == items[i];
    assert WithMotion(items)[|before|] == rest[0];
    assert forall k :: 0 <= k < |before| ==> before[k] == WithMotion(items)[k];
  }

  // ---- events stay apart, and merging them again changes nothing --------------

  function AsItems(runs: seq<Run>): seq<Item> {
    if runs == [] then [] else [Item(runs[0].start, runs[0].end, true, runs[0].bbox)] + AsItems(runs[1..])
  }

  /** `b` begins later than the merging gap after the end of `a`. */
  predicate FarAfter(a: Run, b: Run) {
    a.start <= b.start && Milliseconds(b.start - a.end) > MERGE_GAP_MS
  }

  /** Events are ordered and further apart than the merging gap. */
  ghost predicate Spaced(runs: seq<Run>) {
    forall k, l :: 0 <= k < l < |runs| ==> FarAfter(runs[k], runs[l])
  }

  lemma {:induction false} FlattenPositions(bs: seq<seq<Item>>, k: nat, l: nat)
    requires k < l < |bs| && bs[k] != [] && bs[l] != []
    ensures exists i, j :: 0 <= i < j < |Flatten(bs)| && Flatten(bs)[i] == bs[k][0] && Flatten(bs)[j] == bs[l][0]
    decreases k
  {
    var rest := Flatten(bs[1..]);
    if k > 0 {
      FlattenPositions(bs[1..], k - 1, l - 1);
      var i, j :| 0 <= i < j < |rest| && rest[i] == bs[k][0] && rest[j] == bs[l][0];
      var d := |bs[0]|;
      assert Flatten(bs)[d + i] == rest[i] && Flatten(bs)[d + j] == rest[j];
    } else {
      InFlatten(bs[1..], l - 1, bs[l][0]);
      var j :| 0 <= j < |rest| && rest[j] == bs[l][0];
      assert Flatten(bs)[0] == bs[0][0] && Flatten(bs)[|bs[0]| + j] == rest[j];
    }
  }

  lemma ChainsAreSpaced(bs: seq<seq<Item>>, m: seq<Item>, runs: seq<Run>)
    requires Chains(bs, m) && RunsOf(bs, runs) && SortedByStart(m)
    ensures Spaced(runs)
  {
    forall k, l | 0 <= k < l < |runs|
      ensures FarAfter(runs[k], runs[l])
    {
      assert Linked(bs[k]) && Linked(bs[l]);
      FlattenPositions(bs, k, l);
      MaxEndIsGreatest(bs[k]);
      var i :| 0 <= i < |bs[k]| && bs[k][i].end == MaxEnd(bs[k]);
      assert Apart(bs[k], bs[l]) && bs[k][i] in bs[k] && bs[l][0] in bs[l];
      assert !Near(bs[k][i], bs[l][0]);
    }
  }

  lemma {:induction false} LongRunsAreRuns(runs: seq<Run>)
    ensures forall r :: r in LongRuns(runs) ==> LongEnough(r) && r in runs
    decreases |runs|
  {
    if runs != [] {
      LongRunsAreRuns(runs[1..]);
    }
  }

  lemma {:induction false} LongRunsKeep(runs: seq<Run>)
    requires Spaced(runs)
    ensures Spaced(LongRuns(runs))
    decreases |runs|
  {
    if runs != [] {
      var rest := LongRuns(runs[1..]);
      LongRunsKeep(runs[1..]);
      LongRunsAreRuns(runs[1..]);
      forall l | 0 <= l < |rest|
        ensures FarAfter(runs[0], rest[l])
      {
        assert rest[l] in runs[1..];
        var i :| 0 <= i < |runs[1..]| && runs[1..][i] == rest[l];
        assert FarAfter(runs[0], runs[i + 1]);
      }
    }
  }

  lemma EventsAreApart(items: seq<Item>, result: seq<Run>)
    requires SortedByStart(WithMotion(items)) && AreMotionRuns(items, result)
    ensures Spaced(result) && forall r :: r in result ==> LongEnough(r)
  {
    var bs: seq<seq<Item>>, runs: seq<Run> :| Chains(bs, WithMotion(items)) && RunsOf(bs, runs) && result == LongRuns(runs);
    ChainsAreSpaced(bs, WithMotion(items), runs);
    LongRunsKeep(runs);
    LongRunsAreRuns(runs);
  }

  lemma {:induction false} AsItemsAt(runs: seq<Run>)
    ensures |AsItems(runs)| == |runs| && WithMotion(AsItems(runs)) == AsItems(runs)
    ensures forall k :: 0 <= k < |runs| ==> AsItems(runs)[k] == Item(runs[k].start, runs[k].end, true, runs[k].bbox)
    decreases |runs|
  {
    if runs != [] {
      AsItemsAt(runs[1..]);
      assert AsItems(runs)[1..] == AsItems(runs[1..]);
    }
  }

  function Singletons(m: seq<Item>): seq<seq<Item>> {
    if m == [] then [] else [[m[0]]] + Singletons(m[1..])
  }

  lemma {:induction false} SingletonsAt(m: seq<Item>)
    ensures |Singletons(m)| == |m| && Flatten(Singletons(m)) == m
    ensures forall k :: 0 <= k < |m| ==> Singletons(m)[k] == [m[k]]
    decreases |m|
  {
    if m != [] {
      SingletonsAt(m[1..]);
      assert Singletons(m)[1..] == Singletons(m[1..]);
    }
  }

  lemma {:induction false} LongRunsOfLong(runs: seq<Run>)
    requires forall r :: r in runs ==> LongEnough(r)
    ensures LongRuns(runs) == runs
    decreases |runs|
  {
    if runs != [] {
      LongRunsOfLong(runs[1..]);
      assert runs[0] in runs;
    }
  }

  lemma SpacedRunsAreChains(runs: seq<Run>)
    requires Spaced(runs)
    ensures Chains(Singletons(AsItems(runs)), AsItems(runs)) && RunsOf(Singletons(AsItems(runs)), runs)
  {
    AsItemsAt(runs);
    var m := AsItems(runs);
    var bs := Singletons(m);
    SingletonsAt(m);
    forall k | 0 <= k < |bs|
      ensures Linked(bs[k]) && RunOf(bs[k]) == runs[k]
    {
      RunOfOne(m[k]);
    }
    forall k, l | 0 <= k < l < |bs|
      ensures Apart(bs[k], bs[l])
    {
      SingletonsApart(runs, k, l);
    }
  }

  lemma SingletonsApart(runs: seq<Run>, k: nat, l: nat)
    requires Spaced(runs) && k < l < |runs|
    ensures |AsItems(runs)| == |runs| && Apart([AsItems(runs)[k]], [AsItems(runs)[l]])
  {
    AsItemsAt(runs);
    assert FarAfter(runs[k], runs[l]);
  }

  /** The events of a list of events are those events. */
  lemma MergingIsIdempotent(items: seq<Item>, result: seq<Run>, again: seq<Run>)
    requires SortedByStart(WithMotion(items)) && AreMotionRuns(items, result)
    requires AreMotionRuns(AsItems(result), again)
    ensures SortedByStart(WithMotion(AsItems(result))) && again == result
  {
    EventsAreApart(items, result);
    AsItemsAt(result);
    SpacedRunsAreChains(result);
    LongRunsOfLong(result);
    ResultIsUnique(AsItems(result), result, again);
  }
}
