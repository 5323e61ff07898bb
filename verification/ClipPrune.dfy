/** Keeping the rendition cache below its size limit. */
module ClipPrune {
  import ClipNames
  import opened StableSort

  datatype File = File(name: string, modified: int, size: nat)

  predicate EndsWith(s: string, tail: string) {
    |tail| <= |s| && s[|s| - |tail|..] == tail
  }

  predicate IsRendition(f: File) {
    EndsWith(f.name, ".preview.mp4") || EndsWith(f.name, ".full.mp4")
  }

  /** The files that satisfy `p`, in order. */
  function Only(files: seq<File>, p: File -> bool): seq<File> {
    if files == [] then []
    else
      var last := files[|files| - 1];
      Only(files[..|files| - 1], p) + if p(last) then [last] else []
  }

  lemma {:induction false} OnlyPartitions(files: seq<File>, p: File -> bool)
    ensures multiset(Only(files, p)) + multiset(Only(files, f => !p(f))) == multiset(files)
    ensures forall f :: f in Only(files, p) ==> p(f) && f in files
    ensures forall f :: f in Only(files, f => !p(f)) ==> !p(f) && f in files
    decreases |files|
  {
    if files != [] {
      OnlyPartitions(files[..|files| - 1], p);
      assert files == files[..|files| - 1] + [files[|files| - 1]];
    }
  }

  function Renditions(listing: seq<File>): seq<File> {
    Only(listing, f => IsRendition(f))
  }

  /** Renditions are the files whose name ends in `.preview.mp4` or `.full.mp4`. */
  lemma RenditionsAreThose(listing: seq<File>, f: File)
    ensures f in Renditions(listing) <==>
      f in listing && exists stem :: f.name == stem + ".preview.mp4" || f.name == stem + ".full.mp4"
  {
    OnlyKeeps(listing, f => IsRendition(f), f);
    EndsWithExactly(f.name, ".preview.mp4");
    EndsWithExactly(f.name, ".full.mp4");
  }

  /** Whatever the cache writes is found again for pruning, under the ending of its quality. */
  lemma CachedFilesAreRenditions(f: File, id: string, q: ClipNames.Quality, overviewSecs: nat, preSecs: nat)
    requires f.name == ClipNames.Filename(id, q, overviewSecs, preSecs)
    ensures IsRendition(f)
    ensures EndsWith(f.name, if q == ClipNames.Preview then ".preview.mp4" else ".full.mp4")
  {
    var front := ClipNames.Sanitize(id) + ("." + ClipNames.WindowTag(overviewSecs, preSecs));
    assert f.name == front + ("." + (ClipNames.QualityName(q) + ".mp4"));
    assert "." + ("preview" + ".mp4") == ".preview.mp4" && "." + ("full" + ".mp4") == ".full.mp4";
  }

  lemma EndsWithExactly(s: string, tail: string)
    ensures EndsWith(s, tail) <==> exists stem :: s == stem + tail
  {
    if EndsWith(s, tail) {
      assert s == s[..|s| - |tail|] + tail;
    }
  }

  lemma {:induction false} OnlyKeeps(files: seq<File>, p: File -> bool, f: File)
    ensures f in Only(files, p) <==> f in files && p(f)
    decreases |files|
  {
    if files != [] {
      OnlyKeeps(files[..|files| - 1], p, f);
      assert files == files[..|files| - 1] + [files[|files| - 1]];
    }
  }

  function Total(files: seq<File>): nat {
    if files == [] then 0 else files[0].size + Total(files[1..])
  }

  function NotNewer(): (File, File) -> bool {
    (a: File, b: File) => a.modified <= b.modified
  }

  lemma {:induction false} TotalOfConcat(a: seq<File>, b: seq<File>)
    ensures Total(a + b) == Total(a) + Total(b)
    decreases |a|
  {
    if a == [] {
      assert a + b == b;
    } else {
      assert (a + b)[1..] == a[1..] + b;
      TotalOfConcat(a[1..], b);
    }
  }

  method List(listing: seq<File>) returns (files: seq<File>, total: nat)
    ensures files == Renditions(listing) && total == Total(files)
  {
    files, total := [], 0;
    ghost var p := (f: File) => IsRendition(f);
    for i := 0 to |listing|
      invariant files == Only(listing[..i], p) && total == Total(files)
    {
      assert listing[..i + 1][..i] == listing[..i];
      if IsRendition(listing[i]) {
        TotalOfConcat(files, [listing[i]]);
        files, total := files + [listing[i]], total + listing[i].size;
      }
    }
    assert listing[..|listing|] == listing;
  }

  lemma {:induction false} TotalOfInsert(x: File, s: seq<File>)
    ensures Total(Insert(x, s, NotNewer())) == x.size + Total(s)
    decreases |s|
  {
    if s == [] || NotNewer()(x, s[0]) {
      assert ([x] + s)[1..] == s;
    } else {
      TotalOfInsert(x, s[1..]);
      assert ([s[0]] + Insert(x, s[1..], NotNewer()))[1..] == Insert(x, s[1..], NotNewer());
    }
  }

  lemma {:induction false} TotalOfSort(s: seq<File>)
    ensures Total(Sort(s, NotNewer())) == Total(s)
    decreases |s|
  {
    if s != [] {
      TotalOfSort(s[1..]);
      TotalOfInsert(s[0], Sort(s[1..], NotNewer()));
    }
  }

  /** What the loop knows after the first `i` files. */
  ghost predicate Cut(sorted: seq<File>, i: nat, skipped: seq<File>, deleted: seq<File>, total: nat, maxBytes: nat,
                      removable: File -> bool)
  {
    && i <= |sorted| && total == Total(skipped) + Total(sorted[i..])
    && deleted == Only(sorted[..i], removable) && skipped == Only(sorted[..i], f => !removable(f))
    && (deleted != [] ==> total + deleted[|deleted| - 1].size > maxBytes)
  }

  lemma OneFurther(s: seq<File>, i: nat, p: File -> bool)
    requires i < |s|
    ensures Total(s[i..]) == s[i].size + Total(s[i + 1..])
    ensures Only(s[..i + 1], p) == Only(s[..i], p) + if p(s[i]) then [s[i]] else []
  {
    assert s[i..][1..] == s[i + 1..] && s[..i + 1][..i] == s[..i];
  }

  lemma CutFurther(sorted: seq<File>, i: nat, skipped: seq<File>, deleted: seq<File>, total: nat, maxBytes: nat,
                   removable: File -> bool)
    requires Cut(sorted, i, skipped, deleted, total, maxBytes, removable) && i < |sorted| && total > maxBytes
    ensures total >= sorted[i].size
    ensures if removable(sorted[i])
            then Cut(sorted, i + 1, skipped, deleted + [sorted[i]], total - sorted[i].size, maxBytes, removable)
            else Cut(sorted, i + 1, skipped + [sorted[i]], deleted, total, maxBytes, removable)
  {
    OneFurther(sorted, i, removable);
    OneFurther(sorted, i, f => !removable(f));
    TotalOfConcat(skipped, [sorted[i]]);
  }

  /** The deleting loop: how far it came, what it deleted and what it had to pass over. */
  method DeleteWhileOver(sorted: seq<File>, sum: nat, maxBytes: nat, removable: File -> bool)
    returns (i: nat, skipped: seq<File>, deleted: seq<File>, total: nat)
    requires sum == Total(sorted)
    ensures Cut(sorted, i, skipped, deleted, total, maxBytes, removable)
    ensures i < |sorted| ==> total <= maxBytes
  {
    var left: nat := sum;
    i, skipped, deleted := 0, [], [];
    assert sorted[0..] == sorted;
    while i < |sorted| && left > maxBytes
      invariant Cut(sorted, i, skipped, deleted, left, maxBytes, removable)
    {
      var f := sorted[i];
      CutFurther(sorted, i, skipped, deleted, left, maxBytes, removable);
      if removable(f) {
        deleted, left := deleted + [f], left - f.size;
      } else {
        skipped := skipped + [f];
      }
      i := i + 1;
    }
    total := left;
  }

  lemma CutIsRight(sorted: seq<File>, i: nat, removable: File -> bool, left: seq<File>, deleted: seq<File>)
    requires Sorted(sorted, NotNewer()) && i <= |sorted|
    requires deleted == Only(sorted[..i], removable) && left == Only(sorted[..i], f => !removable(f)) + sorted[i..]
    ensures multiset(left) + multiset(deleted) == multiset(sorted)
    ensures i == |sorted| ==> forall f :: f in left ==> !removable(f)
    ensures forall d :: d in deleted ==> removable(d)
    ensures forall d, f :: d in deleted && f in left && removable(f) ==> d.modified <= f.modified
  {
    assert sorted == sorted[..i] + sorted[i..];
    OnlyPartitions(sorted[..i], removable);
  }

  lemma SortKeepsFiles(files: seq<File>)
    ensures var sorted := Sort(files, NotNewer());
            Sorted(sorted, NotNewer()) && multiset(sorted) == multiset(files) && Total(sorted) == Total(files)
  {
    assert TotalPreorder(NotNewer());
    SortIsStable(files, NotNewer());
    TotalOfSort(files);
  }

  /** What is left and what is deleted of files in the order of their age. */
  ghost predicate Pruned(left: seq<File>, deleted: seq<File>, files: seq<File>, maxBytes: nat, removable: File -> bool) {
    && multiset(left) + multiset(deleted) == multiset(files)
    && (Total(left) <= maxBytes || forall f :: f in left ==> !removable(f))
    && (forall d :: d in deleted ==> removable(d))
    && (forall d, f :: d in deleted && f in left && removable(f) ==> d.modified <= f.modified)
    && (deleted != [] ==> Total(left) + deleted[|deleted| - 1].size > maxBytes)
  }

  method DeleteOldest(sorted: seq<File>, total: nat, maxBytes: nat, removable: File -> bool)
    returns (left: seq<File>, deleted: seq<File>)
    requires Sorted(sorted, NotNewer()) && total == Total(sorted)
    ensures Pruned(left, deleted, sorted, maxBytes, removable)
  {
    var i, skipped;
    var sum;
    i, skipped, deleted, sum := DeleteWhileOver(sorted, total, maxBytes, removable);
    left := skipped + sorted[i..];
    TotalOfConcat(skipped, sorted[i..]);
    CutIsRight(sorted, i, removable, left, deleted);
  }

  /** Deletes renditions, oldest first, until the rest fit; one that cannot be removed is
      passed over. No file that could stay is deleted, and no other file is touched. */
  method PruneClipCache(listing: seq<File>, maxBytes: nat, removable: File -> bool)
    returns (left: seq<File>, deleted: seq<File>)
    ensures Pruned(left, deleted, Renditions(listing), maxBytes, removable)
  {
    var files, total := List(listing);
    if total <= maxBytes {
      return files, [];
    }
    SortKeepsFiles(files);
    left, deleted := DeleteOldest(Sort(files, NotNewer()), total, maxBytes, removable);
  }
}
