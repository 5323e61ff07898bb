/** The `*`-only wildcard matcher of the camera compatibility database.

    `Matches` is the meaning of a pattern; `GlobMatches` is the two-pointer loop that
    remembers only the last star it met. */
module Wildcard {
  import opened Options

  /** `*` stands for any run of characters, including the empty one; every other
      character stands for itself. */
  ghost predicate Matches(p: string, t: string)
    decreases |p|
  {
    if p == "" then t == ""
    else if p[0] == '*' then exists k :: 0 <= k <= |t| && Matches(p[1..], t[k..])
    else t != "" && p[0] == t[0] && Matches(p[1..], t[1..])
  }

  ghost predicate OnlyStars(p: string) {
    forall i :: 0 <= i < |p| ==> p[i] == '*'
  }

  lemma {:induction false} MatchesEmptyText(p: string)
    ensures Matches(p, "") <==> OnlyStars(p)
    decreases |p|
  {
    if p != "" {
      MatchesEmptyText(p[1..]);
      if OnlyStars(p) {
        assert Matches(p[1..], ""[0..]);
      }
      if p[0] == '*' {
        DropStar(p);
      }
    }
  }

  /** A common prefix never hurts, even when it holds stars on both sides. */
  lemma {:induction false} CommonPrefix(l: string, p: string, t: string)
    requires Matches(p, t)
    ensures Matches(l + p, l + t)
    decreases |l|
  {
    if l == "" {
      assert l + p == p && l + t == t;
    } else {
      CommonPrefix(l[1..], p, t);
      assert (l + p)[1..] == l[1..] + p && (l + t)[1..] == l[1..] + t;
    }
  }

  /** A star-free prefix of the pattern is a prefix of every text the pattern matches. */
  lemma {:induction false} LiteralPrefix(l: string, p: string, t: string)
    requires '*' !in l && Matches(l + p, t)
    ensures l <= t && Matches(p, t[|l|..])
    decreases |l|
  {
    if l == "" {
      assert l + p == p && t[0..] == t;
    } else {
      assert (l + p)[1..] == l[1..] + p;
      LiteralPrefix(l[1..], p, t[1..]);
      assert t[1..][|l| - 1..] == t[|l|..];
    }
  }

  /** Without a star a pattern matches itself alone. */
  lemma MatchesLiteral(l: string, t: string)
    requires '*' !in l
    ensures Matches(l, t) <==> l == t
  {
    assert l + "" == l;
    CommonPrefix(l, "", "");
    if Matches(l, t) {
      LiteralPrefix(l, "", t);
    }
  }

  lemma StarTakesUp(p: string, u: string, v: string)
    requires Matches(p, v)
    ensures Matches("*" + p, u + v)
  {
    assert ("*" + p)[1..] == p && (u + v)[|u|..] == v;
  }

  lemma StarTookUp(p: string, t: string) returns (u: string, v: string)
    requires Matches("*" + p, t)
    ensures t == u + v && Matches(p, v)
  {
    assert ("*" + p)[1..] == p;
    var k :| 0 <= k <= |t| && Matches(("*" + p)[1..], t[k..]);
    u, v := t[..k], t[k..];
  }

  /** Up to its first star a pattern must stand in front of the text; the star then takes up
      anything, as long as the rest of the pattern matches what is left. */
  lemma MatchesUpToStar(l: string, p: string, t: string)
    requires '*' !in l
    ensures Matches(l + ("*" + p), t) <==> exists u, v :: t == l + (u + v) && Matches(p, v)
  {
    if Matches(l + ("*" + p), t) {
      LiteralPrefix(l, "*" + p, t);
      var u, v := StarTookUp(p, t[|l|..]);
      assert t == l + (u + v);
    }
    if u, v :| t == l + (u + v) && Matches(p, v) {
      StarTakesUp(p, u, v);
      CommonPrefix(l, "*" + p, u + v);
    }
  }

  /** What the loop still has to decide once a star at `si` has been passed: some suffix
      of the text that starts at `mark` or later matches the rest of the pattern. */
  ghost predicate SuffixMatches(p: string, t: string, mark: nat) {
    exists k :: mark <= k <= |t| && Matches(p, t[k..])
  }

  /** Meeting a further star: the earlier star may be forgotten, because the leftmost
      place where the literal between the two stars fits is as good as any other. */
  lemma ForgetEarlierStar(p: string, t: string, si: nat, i: nat, mark: nat, j: nat)
    requires si < i < |p| && p[i] == '*' && mark <= j <= |t|
    requires p[si + 1..i] == t[mark..j]
    ensures SuffixMatches(p[i + 1..], t, j) ==> SuffixMatches(p[si + 1..], t, mark)
    ensures '*' !in t && SuffixMatches(p[si + 1..], t, mark) ==> SuffixMatches(p[i + 1..], t, j)
  {
    if SuffixMatches(p[i + 1..], t, j) {
      LaterStarMatches(p, t, si, i, mark, j);
    }
    if '*' !in t && SuffixMatches(p[si + 1..], t, mark) {
      EarlierStarMatches(p, t, si, i, mark, j);
    }
  }

  lemma LaterStarMatches(p: string, t: string, si: nat, i: nat, mark: nat, j: nat)
    requires si < i < |p| && p[i] == '*' && mark <= j <= |t| && p[si + 1..i] == t[mark..j]
    requires SuffixMatches(p[i + 1..], t, j)
    ensures SuffixMatches(p[si + 1..], t, mark)
  {
    StarThenSuffix(p, t, p[si + 1..i], i, j);
    assert p[si + 1..] == p[si + 1..i] + p[i..] && t[mark..j] + t[j..] == t[mark..];
  }

  lemma EarlierStarMatches(p: string, t: string, si: nat, i: nat, mark: nat, j: nat)
    requires si < i < |p| && p[i] == '*' && mark <= j <= |t| && p[si + 1..i] == t[mark..j]
    requires '*' !in t && SuffixMatches(p[si + 1..], t, mark)
    ensures SuffixMatches(p[i + 1..], t, j)
  {
    var l := p[si + 1..i];
    var k :| mark <= k <= |t| && Matches(p[si + 1..], t[k..]);
    assert p[si + 1..] == l + p[i..];
    LiteralPrefix(l, p[i..], t[k..]);
    assert t[k..][|l|..] == t[k + |l|..];
    StarLeavesSuffix(p, t, i, k + |l|);
  }

  /** A mismatch after a star: no match can start at `mark`, so the next try is one later. */
  lemma NoMatchAtMark(p: string, t: string, si: nat, i: nat, mark: nat, j: nat)
    requires si < i <= |p| && mark <= j < |t| && '*' !in t
    requires p[si + 1..i] == t[mark..j]
    requires i < |p| ==> p[i] != t[j] && p[i] != '*'
    ensures !Matches(p[si + 1..], t[mark..])
  {
    var l := p[si + 1..i];
    assert p[si + 1..] == l + p[i..];
    assert t[mark..][|l|..] == t[j..];
    if Matches(p[si + 1..], t[mark..]) {
      LiteralPrefix(l, p[i..], t[mark..]);
    }
  }

  /** The text is used up: only a match that starts exactly at `mark` can remain. */
  lemma TextUsedUp(p: string, t: string, si: nat, i: nat, mark: nat)
    requires si < i <= |p| && mark <= |t|
    requires p[si + 1..i] == t[mark..|t|]
    ensures OnlyStars(p[i..]) ==> SuffixMatches(p[si + 1..], t, mark)
    ensures '*' !in t && SuffixMatches(p[si + 1..], t, mark) ==> OnlyStars(p[i..])
  {
    var l := p[si + 1..i];
    assert p[si + 1..] == l + p[i..] && t[mark..|t|] == t[mark..];
    MatchesEmptyText(p[i..]);
    if OnlyStars(p[i..]) {
      CommonPrefix(l, p[i..], "");
      assert l + "" == t[mark..];
    }
    if '*' !in t && SuffixMatches(p[si + 1..], t, mark) {
      var k :| mark <= k <= |t| && Matches(p[si + 1..], t[k..]);
      LiteralPrefix(l, p[i..], t[k..]);
      assert t[k..][|l|..] == "";
    }
  }

  /** What the loop knows: everything up to the last star is settled, and the literal
      after that star has been laid over the text from `mark` to `j`. */
  ghost predicate Settled(p: string, t: string, star: Option<nat>, mark: nat) {
    match star
    case None => true
    case Some(si) =>
      && si < |p|
      && (SuffixMatches(p[si + 1..], t, mark) ==> Matches(p, t))
      && ('*' !in t && Matches(p, t) ==> SuffixMatches(p[si + 1..], t, mark))
  }

  ghost predicate LaidOver(p: string, t: string, i: nat, j: nat, star: Option<nat>, mark: nat) {
    && i <= |p| && mark <= j <= |t|
    && match star
       case None => i == j && p[..i] == t[..j]
       case Some(si) => si < i && p[si + 1..i] == t[mark..j]
  }

  lemma LiteralStep(p: string, t: string, i: nat, j: nat, star: Option<nat>, mark: nat)
    requires LaidOver(p, t, i, j, star, mark)
    requires i < |p| && j < |t| && p[i] == t[j]
    ensures LaidOver(p, t, i + 1, j + 1, star, mark)
  {
    assert t[mark..j + 1] == t[mark..j] + [t[j]];
    match star
    case None =>
    case Some(si) => assert p[si + 1..i + 1] == p[si + 1..i] + [p[i]];
  }

  lemma NextStar(p: string, t: string, i: nat, j: nat, si: nat, mark: nat)
    requires LaidOver(p, t, i, j, Some(si), mark) && Settled(p, t, Some(si), mark)
    requires i < |p| && p[i] == '*'
    ensures LaidOver(p, t, i + 1, j, Some(i), j) && Settled(p, t, Some(i), j)
  {
    ForgetEarlierStar(p, t, si, i, mark, j);
  }

  lemma RetryStep(p: string, t: string, i: nat, j: nat, si: nat, mark: nat)
    requires LaidOver(p, t, i, j, Some(si), mark) && Settled(p, t, Some(si), mark)
    requires j < |t| && (i < |p| ==> p[i] != t[j] && p[i] != '*')
    ensures LaidOver(p, t, si + 1, mark + 1, Some(si), mark + 1)
    ensures Settled(p, t, Some(si), mark + 1)
  {
    if '*' !in t {
      NoMatchAtMark(p, t, si, i, mark, j);
    }
  }

  lemma GiveUp(p: string, t: string, i: nat)
    requires i <= |p| && i < |t| && p[..i] == t[..i] && '*' !in t
    requires i < |p| ==> p[i] != t[i] && p[i] != '*'
    ensures !Matches(p, t)
  {
    assert p == p[..i] + p[i..];
    if Matches(p, t) {
      LiteralPrefix(p[..i], p[i..], t);
    }
  }

  lemma DropStar(p: string)
    requires p != "" && p[0] == '*'
    ensures OnlyStars(p) <==> OnlyStars(p[1..])
  {
    assert OnlyStars(p[1..]) ==> forall i :: 0 < i < |p| ==> p[i] == p[1..][i - 1];
  }

  /** Whether only stars are left of the pattern. */
  method SkipStars(p: string, start: nat) returns (r: bool)
    requires start <= |p|
    ensures r <==> OnlyStars(p[start..])
  {
    var i := start;
    while i < |p| && p[i] == '*'
      invariant i <= |p| && (OnlyStars(p[i..]) <==> OnlyStars(p[start..]))
    {
      DropStar(p[i..]);
      assert p[i..][1..] == p[i + 1..];
      i := i + 1;
    }
    assert i < |p| ==> p[i..][0] == p[i];
    return i == |p|;
  }

  lemma AtTheEnd(p: string, t: string, i: nat, star: Option<nat>, mark: nat)
    requires LaidOver(p, t, i, |t|, star, mark) && Settled(p, t, star, mark)
    ensures OnlyStars(p[i..]) ==> Matches(p, t)
    ensures '*' !in t && Matches(p, t) ==> OnlyStars(p[i..])
  {
    if star.Some? {
      TextUsedUp(p, t, star.value, i, mark);
    } else {
      NoStarMet(p, t, i);
    }
  }

  /** `true` is always right. `false` is right whenever the text holds no `*`, which is
      what normalising guarantees: a `*` in the text is compared as a plain character
      before the wildcard branch is tried. */
  method GlobMatches(p: string, t: string) returns (r: bool)
    ensures r ==> Matches(p, t)
    ensures '*' !in t ==> (r <==> Matches(p, t))
  {
    var i: nat, j: nat, mark: nat := 0, 0, 0;
    var star: Option<nat> := None;
    while j < |t|
      invariant LaidOver(p, t, i, j, star, mark) && Settled(p, t, star, mark)
      decreases |t| - mark, |p| - i
    {
      if i < |p| && p[i] == t[j] {
        LiteralStep(p, t, i, j, star, mark);
        i := i + 1;
        j := j + 1;
      } else if i < |p| && p[i] == '*' {
        if star.Some? {
          NextStar(p, t, i, j, star.value, mark);
        } else {
          FirstStar(p, t, i);
        }
        star := Some(i);
        mark := j;
        i := i + 1;
      } else if star.Some? {
        RetryStep(p, t, i, j, star.value, mark);
        i := star.value + 1;
        mark := mark + 1;
        j := mark;
      } else {
        if '*' !in t {
          GiveUp(p, t, i);
        }
        return false;
      }
    }
    AtTheEnd(p, t, i, star, mark);
    r := SkipStars(p, i);
  }

  lemma FirstStar(p: string, t: string, i: nat)
    requires i < |p| && i <= |t| && p[i] == '*' && p[..i] == t[..i]
    ensures LaidOver(p, t, i + 1, i, Some(i), i) && Settled(p, t, Some(i), i)
  {
    if SuffixMatches(p[i + 1..], t, i) {
      FirstStarMatches(p, t, i);
    }
    if '*' !in t && Matches(p, t) {
      FirstStarIsNeeded(p, t, i);
    }
  }

  lemma FirstStarMatches(p: string, t: string, i: nat)
    requires i < |p| && i <= |t| && p[i] == '*' && p[..i] == t[..i] && SuffixMatches(p[i + 1..], t, i)
    ensures Matches(p, t)
  {
    StarThenSuffix(p, t, p[..i], i, i);
    assert t[..i] + t[i..] == t && p[..i] + p[i..] == p;
  }

  lemma FirstStarIsNeeded(p: string, t: string, i: nat)
    requires i < |p| && i <= |t| && p[i] == '*' && p[..i] == t[..i] && '*' !in t && Matches(p, t)
    ensures SuffixMatches(p[i + 1..], t, i)
  {
    assert p == p[..i] + p[i..];
    LiteralPrefix(p[..i], p[i..], t);
    StarLeavesSuffix(p, t, i, i);
  }

  /** A star takes up what stands before the matching suffix. */
  lemma StarThenSuffix(p: string, t: string, l: string, i: nat, j: nat)
    requires i < |p| && p[i] == '*' && j <= |t| && SuffixMatches(p[i + 1..], t, j)
    ensures Matches(l + p[i..], l + t[j..])
  {
    var k :| j <= k <= |t| && Matches(p[i + 1..], t[k..]);
    assert t[j..][k - j..] == t[k..] && p[i..][1..] == p[i + 1..];
    CommonPrefix(l, p[i..], t[j..]);
  }

  lemma StarLeavesSuffix(p: string, t: string, i: nat, j: nat)
    requires i < |p| && p[i] == '*' && j <= |t| && Matches(p[i..], t[j..])
    ensures SuffixMatches(p[i + 1..], t, j)
  {
    assert p[i..][1..] == p[i + 1..];
    var m :| 0 <= m <= |t[j..]| && Matches(p[i..][1..], t[j..][m..]);
    assert t[j..][m..] == t[j + m..];
  }

  lemma NoStarMet(p: string, t: string, i: nat)
    requires i <= |p| && p[..i] == t[..|t|]
    ensures OnlyStars(p[i..]) ==> Matches(p, t)
    ensures '*' !in t && Matches(p, t) ==> OnlyStars(p[i..])
  {
    assert t[..|t|] == t && p == t + p[i..];
    MatchesEmptyText(p[i..]);
    if OnlyStars(p[i..]) {
      CommonPrefix(t, p[i..], "");
      assert t + "" == t;
    }
    if '*' !in t && Matches(p, t) {
      LiteralPrefix(t, p[i..], t);
    }
  }
}
