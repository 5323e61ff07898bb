/** Voting over the frames of one vehicle pass. */
module PassVotes {
  import opened Options

  /** One accepted read; `snapshot` stands for the frame, box and region kept with it. */
  datatype Read = Read(plate: string, conf: real, snapshot: nat, epoch: real)

  // ---- what a pass amounts to -------------------------------------------------

  function Sum(seen: seq<Read>, plate: string): real {
    if seen == [] then 0.0
    else Sum(seen[..|seen| - 1], plate)
         + if seen[|seen| - 1].plate == plate then seen[|seen| - 1].conf else 0.0
  }

  function Count(seen: seq<Read>, plate: string): nat {
    if seen == [] then 0
    else Count(seen[..|seen| - 1], plate) + if seen[|seen| - 1].plate == plate then 1 else 0
  }

  /** The plates read, in the order of their first read. */
  function Plates(seen: seq<Read>): seq<string> {
    if seen == [] then []
    else
      var front, last := Plates(seen[..|seen| - 1]), seen[|seen| - 1].plate;
      if last in front then front else front + [last]
  }

  /** The first read of the whole pass, of whatever plate, that no other beats. */
  function Best(seen: seq<Read>): Option<Read> {
    if seen == [] then None
    else
      var front, last := Best(seen[..|seen| - 1]), seen[|seen| - 1];
      if last.conf > BestConf(front) then Some(last) else front
  }

  function BestConf(best: Option<Read>): real {
    if best.Some? then best.value.conf else 0.0
  }

  /** The first plate, in that order, with the greatest score. */
  function TopOf(plates: seq<string>, score: string -> real): string
    requires plates != []
  {
    if |plates| == 1 then plates[0]
    else
      var front, last := TopOf(plates[..|plates| - 1], score), plates[|plates| - 1];
      if score(last) > score(front) then last else front
  }

  function SumOf(seen: seq<Read>): string -> real {
    plate => Sum(seen, plate)
  }

  /** The plate with the largest sum, the earliest among equals. */
  function Leader(plates: seq<string>, seen: seq<Read>): string
    requires plates != []
  {
    TopOf(plates, SumOf(seen))
  }

  lemma {:induction false} PlatesAreThoseRead(seen: seq<Read>)
    ensures forall p :: p in Plates(seen) <==> Count(seen, p) > 0
    ensures forall i, j :: 0 <= i < j < |Plates(seen)| ==> Plates(seen)[i] != Plates(seen)[j]
    ensures seen != [] ==> Plates(seen) != []
    decreases |seen|
  {
    if seen != [] {
      PlatesAreThoseRead(seen[..|seen| - 1]);
    }
  }

  /** Read `i` is the first of the plate. */
  ghost predicate IsFirstRead(seen: seq<Read>, plate: string, i: int) {
    0 <= i < |seen| && seen[i].plate == plate && forall k :: 0 <= k < i ==> seen[k].plate != plate
  }

  /** The plates are listed in the order of their first reads. */
  lemma {:induction false} PlatesByFirstRead(seen: seq<Read>, a: nat, b: nat, i: int, j: int)
    requires a < |Plates(seen)| && b < |Plates(seen)|
    requires IsFirstRead(seen, Plates(seen)[a], i) && IsFirstRead(seen, Plates(seen)[b], j) && i < j
    ensures a < b
    decreases |seen|
  {
    var n := |seen| - 1;
    var front := seen[..n];
    PlatesAreThoseRead(seen);
    PlatesAreThoseRead(front);
    ReadBefore(front, Plates(seen)[a], i);
    if j < n {
      ReadBefore(front, Plates(seen)[b], j);
      PlatesByFirstRead(front, a, b, i, j);
    } else {
      NotReadBefore(front, Plates(seen)[b]);
    }
  }

  lemma {:induction false} ReadBefore(seen: seq<Read>, plate: string, i: int)
    requires 0 <= i < |seen| && seen[i].plate == plate
    ensures plate in Plates(seen)
    decreases |seen|
  {
    if i < |seen| - 1 {
      ReadBefore(seen[..|seen| - 1], plate, i);
    }
  }

  lemma {:induction false} NotReadBefore(seen: seq<Read>, plate: string)
    requires forall k :: 0 <= k < |seen| ==> seen[k].plate != plate
    ensures plate !in Plates(seen)
    decreases |seen|
  {
    if seen != [] {
      NotReadBefore(seen[..|seen| - 1], plate);
    }
  }

  /** `plates[k]` has the greatest score, and every plate before it a smaller one. */
  ghost predicate Tops(plates: seq<string>, score: string -> real, k: nat) {
    && k < |plates|
    && (forall i :: 0 <= i < |plates| ==> score(plates[i]) <= score(plates[k]))
    && (forall i :: 0 <= i < k ==> score(plates[i]) < score(plates[k]))
  }

  /** `plates[k]` has the largest sum, and every plate before it a smaller one. */
  ghost predicate Leads(plates: seq<string>, seen: seq<Read>, k: nat) {
    Tops(plates, SumOf(seen), k)
  }

  lemma {:induction false} TopTops(plates: seq<string>, score: string -> real) returns (k: nat)
    requires plates != []
    ensures Tops(plates, score, k) && plates[k] == TopOf(plates, score)
    decreases |plates|
  {
    var n := |plates| - 1;
    if n == 0 {
      k := 0;
    } else {
      var front, last := plates[..n], plates[n];
      var first := TopTops(front, score);
      k := if score(last) > score(front[first]) then n else first;
      assert plates == front + [last];
    }
  }

  lemma LeaderLeads(plates: seq<string>, seen: seq<Read>) returns (k: nat)
    requires plates != []
    ensures Leads(plates, seen, k) && plates[k] == Leader(plates, seen)
  {
    k := TopTops(plates, SumOf(seen));
  }

  lemma TopIsUnique(plates: seq<string>, score: string -> real, k: nat, m: nat)
    requires Tops(plates, score, k) && Tops(plates, score, m)
    ensures k == m
  {
    assert score(plates[k]) == score(plates[m]);
  }

  lemma LeaderIsRead(plates: seq<string>, seen: seq<Read>)
    requires plates != []
    ensures Leader(plates, seen) in plates
  {
    var k := LeaderLeads(plates, seen);
  }

  lemma LeaderOfOneMore(plates: seq<string>, i: nat, seen: seq<Read>)
    requires 0 < i < |plates|
    ensures var leader := Leader(plates[..i], seen);
            Leader(plates[..i + 1], seen) == if Sum(seen, plates[i]) > Sum(seen, leader) then plates[i] else leader
  {
    assert plates[..i + 1][..i] == plates[..i];
  }

  /** What a part of the pass contributes to the votes does not depend on the rest. */
  lemma {:induction false} SumOfParts(a: seq<Read>, b: seq<Read>, plate: string)
    ensures Sum(a + b, plate) == Sum(a, plate) + Sum(b, plate)
    ensures Count(a + b, plate) == Count(a, plate) + Count(b, plate)
    decreases |b|
  {
    if b == [] {
      assert a + b == a;
    } else {
      assert (a + b)[..|a + b| - 1] == a + b[..|b| - 1];
      SumOfParts(a, b[..|b| - 1], plate);
    }
  }

  /** A single read counts its confidence for its own plate alone. */
  lemma SumOfOne(r: Read, plate: string)
    ensures Sum([r], plate) == if plate == r.plate then r.conf else 0.0
    ensures Count([r], plate) == if plate == r.plate then 1 else 0
  {
    assert [r][..0] == [];
  }

  function Times(a: real, n: nat): real {
    if n == 0 then 0.0 else Times(a, n - 1) + a
  }

  lemma {:induction false} TimesIsProduct(a: real, n: nat)
    ensures Times(a, n) == a * n as real
    decreases n
  {
    if n > 0 {
      TimesIsProduct(a, n - 1);
      var m := (n - 1) as real;
      assert n as real == m + 1.0 && a * (m + 1.0) == a * m + a;
    }
  }

  /** A sum lies between as many times the least and the greatest of what it sums. */
  lemma {:induction false} SumBetween(seen: seq<Read>, plate: string, lo: real, hi: real)
    requires forall r :: r in seen && r.plate == plate ==> lo <= r.conf <= hi
    ensures Times(lo, Count(seen, plate)) <= Sum(seen, plate) <= Times(hi, Count(seen, plate))
    decreases |seen|
  {
    if seen != [] {
      SumBetween(seen[..|seen| - 1], plate, lo, hi);
      assert seen[|seen| - 1] in seen;
    }
  }

  lemma ScaleOrder(a: real, b: real, n: real)
    requires n > 0.0 && a * n <= b * n
    ensures a <= b
  {
    assert a > b ==> (a - b) * n > 0.0;
  }

  lemma QuotientBetween(lo: real, s: real, hi: real, n: nat)
    requires n > 0 && Times(lo, n) <= s <= Times(hi, n)
    ensures lo <= s / n as real <= hi
  {
    var q := s / n as real;
    assert q * n as real == s;
    TimesIsProduct(lo, n);
    ScaleOrder(lo, q, n as real);
    TimesIsProduct(hi, n);
    ScaleOrder(q, hi, n as real);
  }

  /** So their mean lies between the least and the greatest. */
  lemma MeanBetween(seen: seq<Read>, plate: string, lo: real, hi: real)
    requires Count(seen, plate) > 0
    requires forall r :: r in seen && r.plate == plate ==> lo <= r.conf <= hi
    ensures lo <= Sum(seen, plate) / Count(seen, plate) as real <= hi
  {
    SumBetween(seen, plate, lo, hi);
    QuotientBetween(lo, Sum(seen, plate), hi, Count(seen, plate));
  }

  /** The kept artefacts are those of the earliest read that no read of the pass beats. */
  lemma {:induction false} BestIsGreatest(seen: seq<Read>)
    ensures forall r :: r in seen ==> r.conf <= BestConf(Best(seen))
    ensures BestConf(Best(seen)) >= 0.0
    ensures Best(seen).Some? ==>
              exists k :: 0 <= k < |seen| && seen[k] == Best(seen).value && seen[k].conf > 0.0
                          && forall i :: 0 <= i < k ==> seen[i].conf < seen[k].conf
    ensures Best(seen).None? <==> forall r :: r in seen ==> r.conf <= 0.0
    decreases |seen|
  {
    if seen != [] {
      var front, last := seen[..|seen| - 1], seen[|seen| - 1];
      BestIsGreatest(front);
      assert seen == front + [last];
      assert forall i :: 0 <= i < |front| ==> seen[i] == front[i];
    }
  }

  // ---- the accumulator --------------------------------------------------------

  /** The two dictionaries and their insertion order after the reads `seen`. */
  ghost predicate Tallied(votes: map<string, real>, count: map<string, nat>, order: seq<string>, seen: seq<Read>) {
    && order == Plates(seen)
    && votes.Keys == count.Keys
    && (forall p :: p in votes <==> Count(seen, p) > 0)
    && (forall p :: p in votes ==> votes[p] == Sum(seen, p) && count[p] == Count(seen, p))
  }

  lemma TallyOne(votes: map<string, real>, count: map<string, nat>, order: seq<string>, seen: seq<Read>, r: Read)
    requires Tallied(votes, count, order, seen)
    ensures var p := r.plate;
            Tallied(votes[p := (if p in votes then votes[p] else 0.0) + r.conf],
                    count[p := (if p in count then count[p] else 0) + 1],
                    if p in votes then order else order + [p], seen + [r])
  {
    Snoc(seen, r);
    PlatesAreThoseRead(seen);
    UnreadPlate(seen, r.plate);
  }

  ghost predicate Consistent(votes: map<string, real>, count: map<string, nat>, order: seq<string>,
                             best: Option<Read>, seen: seq<Read>)
  {
    Tallied(votes, count, order, seen) && best == Best(seen)
  }

  lemma ConsistentWithOneMore(votes: map<string, real>, count: map<string, nat>, order: seq<string>,
                              best: Option<Read>, seen: seq<Read>, r: Read, votes': map<string, real>,
                              count': map<string, nat>, order': seq<string>, best': Option<Read>)
    requires Consistent(votes, count, order, best, seen)
    requires votes' == votes[r.plate := (if r.plate in votes then votes[r.plate] else 0.0) + r.conf]
    requires count' == count[r.plate := (if r.plate in count then count[r.plate] else 0) + 1]
    requires order' == if r.plate in votes then order else order + [r.plate]
    requires best' == if r.conf > BestConf(best) then Some(r) else best
    ensures Consistent(votes', count', order', best', seen + [r])
  {
    TallyOne(votes, count, order, seen, r);
    BestOfSnoc(seen, r);
  }

  class PassVote {
    var votes: map<string, real>
    var count: map<string, nat>
    var order: seq<string>       // the insertion order of both dictionaries
    var best: Option<Read>
    var started: real
    ghost var seen: seq<Read>   // the pass so far

    ghost predicate Valid()
      reads this
    {
      Consistent(votes, count, order, best, seen)
    }

    constructor ()
      ensures Valid() && seen == [] && started == 0.0
    {
      votes, count, order, best, started := map[], map[], [], None, 0.0;
      seen := [];
    }

    method Active() returns (active: bool)
      requires Valid()
      ensures active <==> seen != []
    {
      assert seen != [] ==> Count(seen, seen[|seen| - 1].plate) > 0;
      active := votes.Keys != {};
    }

    /** `clock` and `wall` are the monotonic and the calendar time of the call. */
    method Add(plate: string, conf: real, snapshot: nat, clock: real, wall: real)
      requires Valid()
      modifies this
      ensures Valid() && seen == old(seen) + [Read(plate, conf, snapshot, wall)]
      ensures started == if old(seen) == [] then clock else old(started)
    {
      var active := Active();
      if !active {
        started := clock;
      }
      Tally(Read(plate, conf, snapshot, wall));
    }

    method Tally(r: Read)
      requires Valid()
      modifies `votes, `count, `order, `best, `seen
      ensures Valid() && seen == old(seen) + [r]
    {
      var votes' := votes[r.plate := (if r.plate in votes then votes[r.plate] else 0.0) + r.conf];
      var count' := count[r.plate := (if r.plate in count then count[r.plate] else 0) + 1];
      var order' := if r.plate in votes then order else order + [r.plate];
      var best' := if r.conf > BestConf(best) then Some(r) else best;
      ConsistentWithOneMore(votes, count, order, best, seen, r, votes', count', order', best');
      votes, count, order, best, seen := votes', count', order', best', seen + [r];
    }

    /** The plate with the most summed confidence, and its mean confidence. */
    method Winner() returns (w: Option<(string, real)>)
      requires Valid()
      ensures w.None? <==> seen == []
      ensures w.Some? ==> Plates(seen) != [] && w.value.0 == Leader(Plates(seen), seen)
      ensures w.Some? ==> Count(seen, w.value.0) > 0
                          && w.value.1 == Sum(seen, w.value.0) / Count(seen, w.value.0) as real
    {
      var active := Active();
      if !active {
        return None;
      }
      PlatesAreThoseRead(seen);
      var plate := MaxByVotes();
      w := Some((plate, votes[plate] / count[plate] as real));
    }

    /** The first key of the dictionary, in insertion order, with the largest value. */
    method MaxByVotes() returns (plate: string)
      requires Valid() && order != []
      ensures plate == Leader(order, seen) && plate in votes
    {
      PlatesAreThoseRead(seen);
      plate := order[0];
      for i := 1 to |order|
        invariant plate == Leader(order[..i], seen) && plate in votes
      {
        LeaderOfOneMore(order, i, seen);
        assert order[i] in order;
        if votes[order[i]] > votes[plate] {
          plate := order[i];
        }
      }
      assert order[..|order|] == order;
    }

    method Reset()
      modifies this
      ensures Valid() && seen == [] && started == 0.0
    {
      votes, count, order, best, started := map[], map[], [], None, 0.0;
      seen := [];
    }
  }

  lemma Snoc(seen: seq<Read>, r: Read)
    ensures forall p :: Sum(seen + [r], p) == Sum(seen, p) + (if r.plate == p then r.conf else 0.0)
    ensures forall p :: Count(seen + [r], p) == Count(seen, p) + (if r.plate == p then 1 else 0)
    ensures Plates(seen + [r]) == if r.plate in Plates(seen) then Plates(seen) else Plates(seen) + [r.plate]
  {
    assert (seen + [r])[..|seen|] == seen;
  }

  lemma BestOfSnoc(seen: seq<Read>, r: Read)
    ensures Best(seen + [r]) == if r.conf > BestConf(Best(seen)) then Some(r) else Best(seen)
  {
    assert (seen + [r])[..|seen|] == seen;
  }

  lemma {:induction false} UnreadPlate(seen: seq<Read>, plate: string)
    ensures Count(seen, plate) == 0 ==> Sum(seen, plate) == 0.0
    decreases |seen|
  {
    if seen != [] {
      UnreadPlate(seen[..|seen| - 1], plate);
    }
  }
}
