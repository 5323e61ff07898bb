/** Cutting a string at a separator. */
module Splitting {
  import opened Options

  /** The part before the first `sep`, and the part after it if there is one. */
  function SplitOnce(s: string, sep: char): (string, Option<string>) {
    if s == [] then ([], None)
    else if s[0] == sep then ([], Some(s[1..]))
    else var r := SplitOnce(s[1..], sep); ([s[0]] + r.0, r.1)
  }

  lemma {:induction false} SplitOnceAt(s: string, sep: char, rest: string)
    requires sep !in s
    ensures SplitOnce(s, sep) == (s, None)
    ensures SplitOnce(s + ([sep] + rest), sep) == (s, Some(rest))
    decreases |s|
  {
    var whole := s + ([sep] + rest);
    if s == "" {
      assert whole[1..] == rest;
    } else {
      SplitOnceAt(s[1..], sep, rest);
      assert whole[1..] == s[1..] + ([sep] + rest);
      assert [s[0]] + s[1..] == s;
    }
  }

  lemma {:induction false} SplitOnceShortens(s: string, sep: char)
    ensures SplitOnce(s, sep).1.Some? ==> |SplitOnce(s, sep).1.value| < |s|
    decreases |s|
  {
    if s != [] {
      SplitOnceShortens(s[1..], sep);
    }
  }
}
