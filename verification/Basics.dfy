/** Small notions that several modules share. */
module Basics {

  ghost predicate Distinct<T>(s: seq<T>) {
    forall i, j :: 0 <= i < j < |s| ==> s[i] != s[j]
  }

  function Clamp(v: int, lo: nat, hi: nat): (r: nat)
    requires lo <= hi
    ensures lo <= r <= hi
    ensures r == v || (v < r == lo) || (v > r == hi)
  {
    if v < lo then lo else if v > hi then hi else v
  }

  /** An ASCII letter or digit. */
  predicate IsAlphanumeric(c: char) {
    'a' <= c <= 'z' || 'A' <= c <= 'Z' || '0' <= c <= '9'
  }
}
