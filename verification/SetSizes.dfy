/** Sizes of finite sets. */
module SetSizes {

  lemma {:induction false} SubsetIsSmaller<T>(a: set<T>, b: set<T>)
    requires a <= b
    ensures |a| <= |b|
    decreases a
  {
    if a != {} {
      var x :| x in a;
      SubsetIsSmaller(a - {x}, b - {x});
    }
  }

  lemma SameSizeSubset<T>(x: set<T>, y: set<T>)
    requires x <= y && |x| == |y|
    ensures x == y
  {
    assert |y - x| == |y| - |x|;
    assert y == x + (y - x);
  }

  /** Different elements with different images: as many of these as of those. */
  lemma {:induction false} ImageHasSize<T, U>(s: set<T>, f: map<T, U>, image: set<U>)
    requires s <= f.Keys && image == set x | x in s :: f[x]
    requires forall x, y :: x in s && y in s && x != y ==> f[x] != f[y]
    ensures |image| == |s|
    decreases s
  {
    if s == {} {
      assert image == {};
    } else {
      var x :| x in s;
      var rest := set y | y in s - {x} :: f[y];
      assert image == rest + {f[x]};
      ImageHasSize(s - {x}, f, rest);
    }
  }
}
