/** Trimming, as the standard library's `str::trim` does it. */
module Whitespace {

  /** The characters of the Unicode White_Space property. */
  predicate IsWhitespace(c: char) {
    var n := c as int;
    || 0x09 <= n <= 0x0d || n == 0x20 || n == 0x85 || n == 0xa0 || n == 0x1680
    || 0x2000 <= n <= 0x200a || n == 0x2028 || n == 0x2029 || n == 0x202f || n == 0x205f || n == 0x3000
  }

  const TABLE := [0x09, 0x0a, 0x0b, 0x0c, 0x0d, 0x20, 0x85, 0xa0, 0x1680, 0x2000, 0x2001, 0x2002, 0x2003, 0x2004,
                  0x2005, 0x2006, 0x2007, 0x2008, 0x2009, 0x200a, 0x2028, 0x2029, 0x202f, 0x205f, 0x3000]

  /** They are twenty-five. */
  lemma WhiteSpaceTable(c: char)
    ensures IsWhitespace(c) <==> c as int in TABLE
  {
  }

  function TrimStart(s: string): string {
    if s != "" && IsWhitespace(s[0]) then TrimStart(s[1..]) else s
  }

  function TrimEnd(s: string): string {
    if s != "" && IsWhitespace(s[|s| - 1]) then TrimEnd(s[..|s| - 1]) else s
  }

  function Trim(s: string): string {
    TrimEnd(TrimStart(s))
  }

  lemma {:induction false} TrimEndCuts(s: string)
    ensures TrimEnd(s) <= s && forall i :: |TrimEnd(s)| <= i < |s| ==> IsWhitespace(s[i])
    decreases |s|
  {
    if s != "" && IsWhitespace(s[|s| - 1]) {
      TrimEndCuts(s[..|s| - 1]);
    }
  }

  ghost predicate IsBlank(s: string) {
    forall i :: 0 <= i < |s| ==> IsWhitespace(s[i])
  }

  /** `t` is what is left of `s` without the white space at both ends. */
  ghost predicate IsTrimmed(t: string, s: string) {
    && (exists u, v :: s == u + t + v && IsBlank(u) && IsBlank(v))
    && (t != "" ==> !IsWhitespace(t[0]) && !IsWhitespace(t[|t| - 1]))
  }

  lemma {:induction false} TrimStartCuts(s: string) returns (u: string)
    ensures s == u + TrimStart(s) && IsBlank(u)
    ensures TrimStart(s) != "" ==> !IsWhitespace(TrimStart(s)[0])
    decreases |s|
  {
    if s != "" && IsWhitespace(s[0]) {
      var rest := TrimStartCuts(s[1..]);
      u := [s[0]] + rest;
      assert s == [s[0]] + s[1..];
    } else {
      u := "";
    }
  }

  lemma {:induction false} TrimEndStops(s: string)
    ensures TrimEnd(s) != "" ==> !IsWhitespace(TrimEnd(s)[|TrimEnd(s)| - 1])
    decreases |s|
  {
    if s != "" && IsWhitespace(s[|s| - 1]) {
      TrimEndStops(s[..|s| - 1]);
    }
  }

  lemma TrimEndLeaves(s: string) returns (v: string)
    ensures s == TrimEnd(s) + v && IsBlank(v)
    ensures TrimEnd(s) != "" ==> TrimEnd(s)[0] == s[0]
  {
    TrimEndCuts(s);
    v := s[|TrimEnd(s)|..];
  }

  lemma TrimIsTrimmed(s: string)
    ensures IsTrimmed(Trim(s), s)
  {
    var u := TrimStartCuts(s);
    var v := TrimEndLeaves(TrimStart(s));
    TrimEndStops(TrimStart(s));
    assert s == u + Trim(s) + v;
  }
}
