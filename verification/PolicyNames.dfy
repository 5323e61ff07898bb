/** Automatic names for the recording policies a camera edit creates. */
module PolicyNames {
  import Decimal
  import opened SetSizes
  import opened Whitespace

  function Base(cameraName: string): string {
    var trimmed := Trim(cameraName);
    if trimmed == "" then "Camera" else trimmed
  }

  /** `base`, then `base 2`, `base 3`, … */
  function Candidate(base: string, n: nat): string {
    if n <= 1 then base else base + " " + Decimal.Print(n)
  }

  lemma CandidatesAreDistinct(base: string, m: nat, n: nat)
    requires 1 <= m < n
    ensures Candidate(base, m) != Candidate(base, n)
  {
    var prefix := base + " ";
    assert Candidate(base, n)[|prefix|..] == Decimal.Print(n);
    if Candidate(base, m) == Candidate(base, n) {
      assert m > 1 ==> Candidate(base, m)[|prefix|..] == Decimal.Print(m);
      Decimal.PrintIsInjective(m, n);
    }
  }

  /** `tried` collects the candidates seen so far; all of them are taken, so there can be
      no more of them than taken names. */
  lemma TriesAreBounded(base: string, n: nat, tried: set<string>, taken: set<string>)
    requires n >= 1 && tried == (set m | 1 <= m < n :: Candidate(base, m))
    requires |tried| == n - 1 && tried <= taken && Candidate(base, n) in taken
    ensures Candidate(base, n) !in tried
    ensures |tried + {Candidate(base, n)}| == n <= |taken|
    ensures tried + {Candidate(base, n)} == (set m | 1 <= m < n + 1 :: Candidate(base, m))
  {
    forall m | 1 <= m < n
      ensures Candidate(base, m) != Candidate(base, n)
    {
      CandidatesAreDistinct(base, m, n);
    }
    SubsetIsSmaller(tried + {Candidate(base, n)}, taken);
  }

  /** The first candidate that is not taken, found after at most one try more than there
      are taken names. */
  ghost predicate IsMinted(name: string, taken: set<string>, cameraName: string) {
    && name !in taken
    && exists n :: 1 <= n <= |taken| + 1 && name == Candidate(Base(cameraName), n)
                   && forall m :: 1 <= m < n ==> Candidate(Base(cameraName), m) in taken
  }

  /** The name of the camera without the white space at its ends, or `Camera` for a blank one. */
  ghost predicate IsBase(base: string, cameraName: string) {
    if IsBlank(cameraName) then base == "Camera" else base != "" && IsTrimmed(base, cameraName)
  }

  lemma BaseIsBase(cameraName: string)
    ensures IsBase(Base(cameraName), cameraName)
  {
    var t := Trim(cameraName);
    TrimIsTrimmed(cameraName);
    var u, v :| cameraName == u + t + v && IsBlank(u) && IsBlank(v);
    if t != "" {
      assert cameraName[|u|] == t[0];
    }
  }

  /** That name itself if it is free; otherwise with the least number from 2 on that is. */
  lemma MintedReads(name: string, taken: set<string>, cameraName: string) returns (base: string)
    requires IsMinted(name, taken, cameraName)
    ensures IsBase(base, cameraName) && name !in taken
    ensures base !in taken ==> name == base
    ensures base in taken ==>
      exists n :: n >= 2 && name == base + " " + Decimal.Print(n)
                  && forall m :: 2 <= m < n ==> base + " " + Decimal.Print(m) in taken
  {
    base := Base(cameraName);
    BaseIsBase(cameraName);
    var n :| 1 <= n <= |taken| + 1 && name == Candidate(base, n) && forall m :: 1 <= m < n ==> Candidate(base, m) in taken;
    assert n > 1 ==> Candidate(base, 1) in taken;
    if n > 1 {
      forall m | 2 <= m < n
        ensures base + " " + Decimal.Print(m) in taken
      {
        assert Candidate(base, m) in taken;
      }
    }
  }

  lemma MintedIsUnique(a: string, b: string, taken: set<string>, cameraName: string)
    requires IsMinted(a, taken, cameraName) && IsMinted(b, taken, cameraName)
    ensures a == b
  {
  }

  method MintDeviationName(taken: set<string>, cameraName: string) returns (cand: string)
    ensures IsMinted(cand, taken, cameraName)
  {
    var base := Base(cameraName);
    cand := base;
    var n := 1;
    ghost var tried: set<string> := {};
    while cand in taken
      invariant 1 <= n <= |taken| + 1 && cand == Candidate(base, n)
      invariant tried == (set m | 1 <= m < n :: Candidate(base, m))
      invariant |tried| == n - 1 && tried <= taken
      decreases |taken| + 1 - n
    {
      TriesAreBounded(base, n, tried, taken);
      tried := tried + {cand};
      n := n + 1;
      cand := base + " " + Decimal.Print(n);
    }
  }
}
