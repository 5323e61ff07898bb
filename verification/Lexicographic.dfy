/** Strings in the order of their characters. */
module Lexicographic {

  predicate Before(a: string, b: string) {
    if b == "" then false
    else if a == "" then true
    else a[0] < b[0] || (a[0] == b[0] && Before(a[1..], b[1..]))
  }

  lemma {:induction false} BeforeIsStrictOrder(a: string, b: string, c: string)
    ensures a != b ==> Before(a, b) || Before(b, a)
    ensures !Before(a, a) && !(Before(a, b) && Before(b, a))
    ensures Before(a, b) && Before(b, c) ==> Before(a, c)
    decreases |a| + |b| + |c|
  {
    var a', b', c' := if a == "" then a else a[1..], if b == "" then b else b[1..], if c == "" then c else c[1..];
    if a != "" || b != "" || c != "" {
      BeforeIsStrictOrder(a', b', c');
      if a != "" && b != "" && a[0] == b[0] && a' == b' {
        assert a == [a[0]] + a' && b == [b[0]] + b';
      }
    }
  }

  /** `k` is where two strings first differ, or where the shorter one of them ends. */
  ghost predicate AgreeUpTo(a: string, b: string, k: nat) {
    && k <= |a| && k <= |b| && a[..k] == b[..k]
    && (k < |a| && k < |b| ==> a[k] != b[k])
  }

  /** The first difference decides; a proper prefix comes first. */
  lemma {:induction false} FirstDifferenceDecides(a: string, b: string, k: nat)
    requires AgreeUpTo(a, b, k)
    ensures Before(a, b) <==> k < |b| && (k == |a| || a[k] < b[k])
    decreases k
  {
    if k > 0 {
      assert a[0] == a[..k][0] == b[..k][0] == b[0];
      assert a[1..][..k - 1] == a[..k][1..] == b[..k][1..] == b[1..][..k - 1];
      FirstDifferenceDecides(a[1..], b[1..], k - 1);
    }
  }

  /** Cutting two strings at the same place never turns their order round. */
  lemma {:induction false} PrefixKeepsOrder(a: string, b: string, n: nat)
    requires Before(a, b) && n <= |a| && n <= |b|
    ensures !Before(b[..n], a[..n])
    decreases n
  {
    if n > 0 {
      assert a[..n][1..] == a[1..][..n - 1] && b[..n][1..] == b[1..][..n - 1];
      if a[0] == b[0] {
        PrefixKeepsOrder(a[1..], b[1..], n - 1);
      }
    }
  }
}
