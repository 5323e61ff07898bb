/** Stable sorting: what the standard library's `sort_by` and `sort_by_key` compute. */
module StableSort {

  ghost predicate TotalPreorder<T(!new)>(le: (T, T) -> bool) {
    && (forall x, y :: le(x, y) || le(y, x))
    && (forall x, y, z :: le(x, y) && le(y, z) ==> le(x, z))
  }

  ghost predicate Sorted<T>(s: seq<T>, le: (T, T) -> bool) {
    forall i, j :: 0 <= i < j < |s| ==> le(s[i], s[j])
  }

  /** `x` in front of everything it may precede. */
  function Insert<T>(x: T, s: seq<T>, le: (T, T) -> bool): seq<T> {
    if s == [] || le(x, s[0]) then [x] + s else [s[0]] + Insert(x, s[1..], le)
  }

  function Sort<T>(s: seq<T>, le: (T, T) -> bool): seq<T> {
    if s == [] then [] else Insert(s[0], Sort(s[1..], le), le)
  }

  /** The elements of `s` that rank equal to `v`, in order. */
  function Ties<T>(s: seq<T>, v: T, le: (T, T) -> bool): seq<T> {
    if s == [] then []
    else (if le(s[0], v) && le(v, s[0]) then [s[0]] else []) + Ties(s[1..], v, le)
  }

  /** Sorting only reorders, and never two elements that rank equal. */
  ghost predicate SameTies<T(!new)>(s: seq<T>, t: seq<T>, le: (T, T) -> bool) {
    forall v :: Ties(s, v, le) == Ties(t, v, le)
  }

  lemma InFront<T(!new)>(x: T, s: seq<T>, le: (T, T) -> bool)
    requires Sorted(s, le) && forall y :: y in s ==> le(x, y)
    ensures Sorted([x] + s, le)
  {
  }

  lemma BeforeTheFirst<T(!new)>(x: T, s: seq<T>, le: (T, T) -> bool)
    requires TotalPreorder(le) && Sorted(s, le) && (s == [] || le(x, s[0]))
    ensures forall y :: y in s ==> le(x, y)
  {
  }

  lemma FirstIsLeast<T(!new)>(x: T, s: seq<T>, rest: seq<T>, le: (T, T) -> bool)
    requires TotalPreorder(le) && Sorted(s, le) && s != [] && !le(x, s[0])
    requires multiset(rest) == multiset{x} + multiset(s[1..])
    ensures forall y :: y in rest ==> le(s[0], y)
  {
    forall y | y in rest
      ensures le(s[0], y)
    {
      assert y in multiset(rest);
      assert y != x ==> y in s[1..];
    }
  }

  lemma {:induction false} InsertSorts<T(!new)>(x: T, s: seq<T>, le: (T, T) -> bool)
    requires TotalPreorder(le) && Sorted(s, le)
    ensures Sorted(Insert(x, s, le), le)
    ensures multiset(Insert(x, s, le)) == multiset{x} + multiset(s)
    decreases |s|
  {
    if s == [] || le(x, s[0]) {
      BeforeTheFirst(x, s, le);
      InFront(x, s, le);
    } else {
      var rest := Insert(x, s[1..], le);
      InsertSorts(x, s[1..], le);
      FirstIsLeast(x, s, rest, le);
      InFront(s[0], rest, le);
      assert s == [s[0]] + s[1..];
    }
  }

  lemma {:induction false} InsertKeepsTies<T(!new)>(x: T, s: seq<T>, le: (T, T) -> bool, v: T)
    requires TotalPreorder(le)
    ensures Ties(Insert(x, s, le), v, le) == Ties([x] + s, v, le)
    decreases |s|
  {
    assert ([x] + s)[1..] == s;
    if s != [] && !le(x, s[0]) {
      InsertKeepsTies(x, s[1..], le, v);
      assert ([x] + s[1..])[1..] == s[1..];
      assert ([s[0]] + Insert(x, s[1..], le))[1..] == Insert(x, s[1..], le);
    }
  }

  lemma {:induction false} SortIsStable<T(!new)>(s: seq<T>, le: (T, T) -> bool)
    requires TotalPreorder(le)
    ensures Sorted(Sort(s, le), le) && multiset(Sort(s, le)) == multiset(s) && SameTies(s, Sort(s, le), le)
    decreases |s|
  {
    if s != [] {
      SortIsStable(s[1..], le);
      var rest := Sort(s[1..], le);
      InsertSorts(s[0], rest, le);
      assert s == [s[0]] + s[1..];
      forall v
        ensures Ties(s, v, le) == Ties(Sort(s, le), v, le)
      {
        InsertKeepsTies(s[0], rest, le, v);
        assert ([s[0]] + rest)[1..] == rest;
      }
    }
  }

  lemma {:induction false} TiesMembers<T>(s: seq<T>, v: T, le: (T, T) -> bool)
    ensures forall x :: x in Ties(s, v, le) ==> x in s && le(x, v) && le(v, x)
    decreases |s|
  {
    if s != [] {
      TiesMembers(s[1..], v, le);
    }
  }

  /** The first element of a sorted sequence is the first of its ties in the other one. */
  lemma FirstOfTies<T(!new)>(s: seq<T>, t: seq<T>, le: (T, T) -> bool)
    requires SameTies(s, t, le) && TotalPreorder(le) && s != []
    ensures t != [] && s[0] in t && Ties(t, s[0], le) != [] && Ties(t, s[0], le)[0] == s[0]
  {
    var x := s[0];
    assert Ties(s, x, le)[0] == x && Ties(t, x, le) == Ties(s, x, le);
    TiesMembers(t, x, le);
    assert x in Ties(t, x, le);
  }

  lemma SameFirst<T(!new)>(s: seq<T>, t: seq<T>, le: (T, T) -> bool)
    requires TotalPreorder(le) && Sorted(s, le) && Sorted(t, le) && SameTies(s, t, le) && s != []
    ensures t != [] && t[0] == s[0]
  {
    FirstOfTies(s, t, le);
    FirstOfTies(t, s, le);
    assert le(s[0], t[0]) && le(t[0], s[0]);
    assert Ties(t, s[0], le)[0] == t[0];
  }

  lemma SameRest<T(!new)>(s: seq<T>, t: seq<T>, le: (T, T) -> bool)
    requires SameTies(s, t, le) && s != [] && t != [] && s[0] == t[0]
    ensures SameTies(s[1..], t[1..], le)
  {
    forall v
      ensures Ties(s[1..], v, le) == Ties(t[1..], v, le)
    {
      assert Ties(s, v, le) == Ties(t, v, le);
      if le(s[0], v) && le(v, s[0]) {
        assert Ties(s[1..], v, le) == Ties(s, v, le)[1..] && Ties(t[1..], v, le) == Ties(t, v, le)[1..];
      } else {
        assert Ties(s[1..], v, le) == Ties(s, v, le) && Ties(t[1..], v, le) == Ties(t, v, le);
      }
    }
  }

  /** There is only one stable sort of a sequence. */
  lemma {:induction false} StableSortIsUnique<T(!new)>(s: seq<T>, t: seq<T>, le: (T, T) -> bool)
    requires TotalPreorder(le) && Sorted(s, le) && Sorted(t, le) && SameTies(s, t, le)
    ensures s == t
    decreases |s|
  {
    if s == [] {
      assert t != [] ==> Ties(t, t[0], le) != [];
    } else {
      SameFirst(s, t, le);
      SameRest(s, t, le);
      StableSortIsUnique(s[1..], t[1..], le);
      assert s == [s[0]] + s[1..] && t == [t[0]] + t[1..];
    }
  }

  // ---- merging sorted runs ----------------------------------------------------

  /** Two sorted sequences merged; the left one first among equals. */
  function Merge<T>(a: seq<T>, b: seq<T>, le: (T, T) -> bool): seq<T>
    decreases |a| + |b|
  {
    if a == [] then b
    else if b == [] then a
    else if le(a[0], b[0]) then [a[0]] + Merge(a[1..], b, le)
    else [b[0]] + Merge(a, b[1..], le)
  }

  function Take<T>(s: seq<T>, k: nat): seq<T> {
    if |s| <= k then s else s[..k]
  }

  lemma {:induction false} InsertBeforeMerge<T(!new)>(x: T, a: seq<T>, b: seq<T>, le: (T, T) -> bool)
    requires TotalPreorder(le) && Sorted([x] + a, le)
    ensures Insert(x, Merge(a, b, le), le) == Merge([x] + a, b, le)
    decreases |a| + |b|
  {
    assert ([x] + a)[1..] == a;
    if a != [] {
      assert ([x] + a)[0] == x && ([x] + a)[1] == a[0];
      assert le(x, a[0]);
    }
    if b == [] {
      assert Merge(a, b, le) == a;
    } else if !le(x, b[0]) {
      InsertBeforeMerge(x, a, b[1..], le);
      if a != [] {
        assert !le(a[0], b[0]);
      }
      assert Merge(a, b, le) == [b[0]] + Merge(a, b[1..], le);
      assert Merge(a, b, le)[1..] == Merge(a, b[1..], le);
    }
  }

  /** A sorted front only has to be merged with the sorted rest. */
  lemma {:induction false} SortAppend<T(!new)>(a: seq<T>, m: seq<T>, le: (T, T) -> bool)
    requires TotalPreorder(le) && Sorted(a, le)
    ensures Sort(a + m, le) == Merge(a, Sort(m, le), le)
    decreases |a|
  {
    if a == [] {
      assert a + m == m;
    } else {
      SortAppend(a[1..], m, le);
      assert (a + m)[1..] == a[1..] + m && [a[0]] + a[1..] == a;
      InsertBeforeMerge(a[0], a[1..], Sort(m, le), le);
    }
  }

  /** The first `k` of a merge need no more than the first `k` of the left side. */
  lemma {:induction false} TakeOfMerge<T>(a: seq<T>, b: seq<T>, k: nat, n: nat, le: (T, T) -> bool)
    requires k <= n
    ensures Take(Merge(a, b, le), k) == Take(Merge(Take(a, n), b, le), k)
    decreases k
  {
    var t := Take(a, n);
    if k > 0 && a != [] && b != [] {
      assert t[0] == a[0];
      if le(a[0], b[0]) {
        TakeOfMerge(a[1..], b, k - 1, n - 1, le);
        assert t[1..] == Take(a[1..], n - 1);
        TakeCons(a[0], Merge(a[1..], b, le), k);
        TakeCons(a[0], Merge(t[1..], b, le), k);
      } else {
        TakeOfMerge(a, b[1..], k - 1, n, le);
        TakeCons(b[0], Merge(a, b[1..], le), k);
        TakeCons(b[0], Merge(t, b[1..], le), k);
      }
    } else if k > 0 && b == [] {
      assert Merge(a, b, le) == a && Merge(t, b, le) == t;
    }
  }

  lemma TakeCons<T>(x: T, s: seq<T>, k: nat)
    requires k > 0
    ensures Take([x] + s, k) == [x] + Take(s, k - 1)
  {
  }
}
