/** For which paths the check of a new location sees the folder the recorder will write to,
    whatever symbolic links there are. */
module StorageTrust {
  import opened Options
  import opened Whitespace
  import opened StoragePaths
  import opened StorageFolders

  ghost predicate CheckedAsUsed(fs: FileSystem, path: string) {
    Lexical(path).absolute && FolderOf(fs, path) == Some(Canonical(fs, Lexical(path)))
  }

  // ---- a file system with one link --------------------------------------------

  /** Every folder exists, and `link` leads to `target`. */
  function OneLink(link: Place, target: Place): FileSystem {
    FileSystem((p: Place) => if p == link then Link(target) else if link <= p then Absent else Folder, [])
  }

  lemma OneLinkIsWellFormed(link: Place, target: Place)
    requires link != [] && !(link <= target)
    ensures OneLink(link, target).WellFormed()
  {
    var fs := OneLink(link, target);
    forall p: Place, name: string | fs.kind(p + [name]) != Absent
      ensures fs.kind(p) == Folder
    {
      assert link <= p ==> link <= p + [name] && |link| < |p + [name]|;
    }
  }

  lemma {:induction false} WalkToLink(link: Place, target: Place, n: nat)
    requires link != [] && !(link <= target) && n <= |link|
    ensures OneLink(link, target).Resolve([], AsComponents(link[..n])) ==
            Some(if n < |link| then link[..n] else target)
    decreases n
  {
    if n > 0 {
      var fs := OneLink(link, target);
      WalkToLink(link, target, n - 1);
      assert AsComponents(link[..n]) == AsComponents(link[..n - 1]) + [Normal(link[n - 1])];
      ResolveAppend(fs, [], AsComponents(link[..n - 1]), [Normal(link[n - 1])]);
      assert [Normal(link[n - 1])][1..] == [] && link[..n - 1] + [link[n - 1]] == link[..n];
      assert n == |link| ==> link[..n] == link;
    }
  }

  /** `p` has exactly `n` times `z`, all at its front. */
  ghost predicate Deep(p: Place, z: string, n: nat) {
    n <= |p| && (forall i :: 0 <= i < n ==> p[i] == z) && forall i :: n <= i < |p| ==> p[i] != z
  }

  lemma OneDepth(p: Place, z: string, m: nat, n: nat)
    requires Deep(p, z, m) && m != n
    ensures !Deep(p, z, n)
  {
    assert m < |p| ==> p[m] != z;
    assert n < m ==> p[n] == z;
  }

  ghost predicate Without(cs: seq<Component>, z: string) {
    forall i :: 0 <= i < |cs| && cs[i].Normal? ==> cs[i].name != z
  }

  /** From deep inside the target, steps that are too few to leave it meet only folders. */
  lemma {:induction false} WalkInTarget(link: Place, target: Place, cur: Place, cs: seq<Component>, z: string, n: nat)
    returns (depth: nat)
    requires link != [] && link[0] != z && !(link <= target)
    requires Deep(cur, z, n) && |cs| < n && Without(cs, z)
    requires Moves(cs)
    ensures OneLink(link, target).Resolve(cur, cs).Some?
    ensures 0 < depth <= n && Deep(OneLink(link, target).Resolve(cur, cs).value, z, depth)
    decreases |cs|
  {
    if cs == [] {
      depth := n;
    } else {
      assert OneLink(link, target).kind(cur) == Folder;
      match cs[0]
      case ParentDir =>
        depth := WalkInTarget(link, target, Parent(cur), cs[1..], z, if |cur| > n then n else n - 1);
      case Normal(name) =>
        assert OneLink(link, target).kind(cur + [name]) == Folder;
        depth := WalkInTarget(link, target, cur + [name], cs[1..], z, n);
    }
  }

  /** Names other than `z` lead either past the link or into its target at full depth. */
  lemma {:induction false} FollowOutside(link: Place, target: Place, cur: Place, names: seq<string>, z: string, n: nat)
    requires link != [] && link[0] != z && Deep(target, z, n) && n > 0
    requires forall i :: 0 <= i < |names| ==> names[i] != z
    requires Deep(cur, z, 0) || Deep(cur, z, n)
    ensures var p := Follow(OneLink(link, target), cur, names); Deep(p, z, 0) || Deep(p, z, n)
    decreases |names|
  {
    if names != [] {
      var next := cur + [names[0]];
      assert Deep(cur, z, n) ==> Deep(next, z, n);
      assert Deep(cur, z, 0) ==> Deep(next, z, 0);
      FollowOutside(link, target, if next == link then target else next, names[1..], z, n);
    }
  }

  lemma {:induction false} CollapseWithout(cs: seq<Component>, z: string)
    requires Without(cs, z)
    ensures forall i :: 0 <= i < |Collapse(cs).names| ==> Collapse(cs).names[i] != z
    decreases |cs|
  {
    if cs != [] {
      CollapseWithout(cs[..|cs| - 1], z);
    }
  }

  lemma {:induction false} FreshName(cs: seq<Component>, n: nat) returns (z: string)
    ensures |z| >= n && Without(cs, z) && forall i :: 0 <= i < |z| ==> z[i] == 'z'
    decreases |cs|
  {
    if cs == [] {
      z := seq(n, _ => 'z');
    } else {
      var last := cs[|cs| - 1];
      z := FreshName(cs[..|cs| - 1], if last.Normal? && |last.name| >= n then |last.name| + 1 else n);
    }
  }

  lemma {:induction false} FirstClimb(cs: seq<Component>) returns (j: nat)
    requires ClimbsOut(cs)
    ensures j < |cs| && cs[j].ParentDir? && !ClimbsOut(cs[..j]) && HasName(cs[..j])
    decreases |cs|
  {
    var front := cs[..|cs| - 1];
    if ClimbsOut(front) {
      j := FirstClimb(front);
      assert front[..j] == cs[..j];
    } else {
      j := |cs| - 1;
    }
  }

  /** The walk goes through the link and leaves its target by the `..`. */
  lemma WalkThroughLink(before: seq<Component>, rest: seq<Component>, link: Place, target: Place)
    requires Steps(before) && !ClimbsOut(before)
    requires link != [] && !(link <= target) && link == Collapse(before).names
    ensures OneLink(link, target).Resolve([], before + ([ParentDir] + rest)) ==
            OneLink(link, target).Resolve(Parent(target), rest)
  {
    var fs := OneLink(link, target);
    OneLinkIsWellFormed(link, target);
    PlainResolvesLexically(fs, before);
    WalkToLink(link, target, |link|);
    assert link[..|link|] == link;
    ResolveAppend(fs, [], before, [ParentDir] + rest);
    assert ([ParentDir] + rest)[1..] == rest;
  }

  /** With a link in front of the `..` the walk ends elsewhere than the comparison looks. */
  lemma LinkDiverts(cs: seq<Component>) returns (fs: FileSystem)
    requires ClimbsOut(cs) && Steps(cs)
    ensures fs.WellFormed()
    ensures fs.Resolve([], cs).Some? && fs.kind(fs.Resolve([], cs).value) == Folder
    ensures fs.Resolve([], cs).value != Follow(fs, [], Collapse(cs).names)
  {
    var j := FirstClimb(cs);
    var z := FreshName(cs, 1);
    var before, rest := cs[..j], cs[j + 1..];
    assert cs == before + ([ParentDir] + rest);
    var n := |cs| + 1;
    var link, target := Collapse(before).names, seq(n, _ => z);
    CollapseWithout(before, z);
    assert link[0] != z == target[0];
    fs := OneLink(link, target);
    OneLinkIsWellFormed(link, target);
    WalkThroughLink(before, rest, link, target);
    Diverted(cs, rest, link, target, z, n);
  }

  lemma Diverted(cs: seq<Component>, rest: seq<Component>, link: Place, target: Place, z: string, n: nat)
    requires link != [] && link[0] != z && |rest| < n - 1 && target == seq(n, _ => z)
    requires Without(cs, z) && Without(rest, z)
    requires Moves(rest)
    requires OneLink(link, target).Resolve([], cs) == OneLink(link, target).Resolve(Parent(target), rest)
    ensures var fs := OneLink(link, target);
            var end := fs.Resolve([], cs);
            end.Some? && fs.kind(end.value) == Folder && end.value != Follow(fs, [], Collapse(cs).names)
  {
    assert target[0] == z;
    var depth := WalkInTarget(link, target, Parent(target), rest, z, n - 1);
    var end := OneLink(link, target).Resolve([], cs).value;
    OneDepth(end, z, depth, 0);
    OneDepth(end, z, depth, n);
    assert end[0] == z;
    CollapseWithout(cs, z);
    FollowOutside(link, target, [], Collapse(cs).names, z, n);
  }

  // ---- surrounding white space ------------------------------------------------

  function Everything(): FileSystem {
    FileSystem((p: Place) => Folder, [])
  }

  lemma {:induction false} EverythingResolves(cs: seq<Component>)
    requires Steps(cs)
    ensures Collapse(cs).absolute && Everything().Resolve([], cs) == Some(Collapse(cs).names)
    decreases |cs|
  {
    var front, last := cs[..|cs| - 1], cs[|cs| - 1];
    assert cs == front + [last] && [last][1..] == [];
    ResolveAppend(Everything(), [], front, [last]);
    if front == [] {
      assert Collapse(cs) == Push(Collapse([]), RootDir);
    } else {
      EverythingResolves(front);
    }
  }

  lemma {:induction false} NothingToFollow(cur: Place, names: seq<string>)
    ensures Follow(Everything(), cur, names) == cur + names
    decreases |names|
  {
    if names != [] {
      NothingToFollow(cur + [names[0]], names[1..]);
      assert cur + [names[0]] + names[1..] == cur + names;
    }
  }

  lemma {:induction false} PartsOfExtended(t: string, w: string)
    requires '/' !in w
    ensures var parts := Parts(t);
            Parts(t + w) == parts[..|parts| - 1] + [parts[|parts| - 1] + w]
    decreases |w|
  {
    if w == "" {
      assert t + w == t;
      assert Parts(t)[|Parts(t)| - 1] + w == Parts(t)[|Parts(t)| - 1];
    } else {
      var w', c := w[..|w| - 1], w[|w| - 1];
      PartsOfExtended(t, w');
      assert (t + w)[..|t + w| - 1] == t + w' && (t + w)[|t + w| - 1] == c;
      var last := Parts(t)[|Parts(t)| - 1];
      assert last + w' + [c] == last + w;
    }
  }

  /** White space at the end makes the last name another one. */
  lemma ExtendedNameDiffers(a: seq<Component>, last: string, w: string)
    requires w != "" && IsWhitespace(w[|w| - 1])
    ensures Collapse(a + PartComponents(last + w)).names != Collapse(a + PartComponents(last)).names
  {
    var longer := last + w;
    assert longer[|longer| - 1] == w[|w| - 1];
    assert PartComponents(longer) == [Normal(longer)];
    assert (a + [Normal(longer)])[..|a|] == a;
    if PartComponents(last) == [] {
      assert a + PartComponents(last) == a;
    } else {
      var c, names := PartComponents(last)[0], Collapse(a).names;
      assert (a + [c])[..|a|] == a;
      assert (names + [longer])[|names|] == longer && (names + [last])[|names|] == last;
    }
  }

  lemma ComponentsByPart(s: string)
    requires IsAbsolute(s)
    ensures var parts := Parts(s);
            Components(s) == [RootDir] + AllComponents(parts[..|parts| - 1]) + PartComponents(parts[|parts| - 1])
  {
  }

  lemma TrailingSpaceMatters(t: string, w: string)
    requires IsAbsolute(t) && w != "" && forall i :: 0 <= i < |w| ==> IsWhitespace(w[i])
    ensures Collapse(Components(t + w)).names != Collapse(Components(t)).names
  {
    var parts := Parts(t);
    var front, last := parts[..|parts| - 1], parts[|parts| - 1];
    PartsOfExtended(t, w);
    var parts' := Parts(t + w);
    assert parts'[..|parts'| - 1] == front && parts'[|parts'| - 1] == last + w;
    ComponentsByPart(t);
    ComponentsByPart(t + w);
    ExtendedNameDiffers([RootDir] + AllComponents(front), last, w);
  }

  lemma TrailingSpaceIsUsed(path: string)
    requires Trim(path) != path && IsAbsolute(Trim(path)) && TrimStart(path) == path
    ensures IsAbsolute(path) && Collapse(Components(path)).names != Lexical(path).names
  {
    var t := Trim(path);
    TrimEndCuts(path);
    assert path == t + path[|t|..];
    TrailingSpaceMatters(t, path[|t|..]);
  }

  lemma EverythingIsAccepted(root: string, path: string)
    requires IsAbsolute(Trim(path)) && Components(root) <= Components(Trim(path))
    ensures Everything().WellFormed() && Validate(Everything(), root, path).None?
  {
    AbsoluteComponents(Trim(path));
    EverythingResolves(Components(Trim(path)));
  }

  lemma EverythingIsComparedAs(path: string)
    requires IsAbsolute(Trim(path))
    ensures Lexical(path).absolute && Canonical(Everything(), Lexical(path)) == Lexical(path).names
  {
    AbsoluteComponents(Trim(path));
    EverythingResolves(Components(Trim(path)));
    NothingToFollow([], Lexical(path).names);
    assert [] + Lexical(path).names == Lexical(path).names;
  }

  lemma EverythingIsUsedAs(path: string)
    requires IsAbsolute(path)
    ensures FolderOf(Everything(), path) == Some(Collapse(Components(path)).names)
  {
    AbsoluteComponents(path);
    EverythingResolves(Components(path));
  }

  /** The check trims the path, the database does not. */
  lemma UntrimmedDiffers(root: string, path: string)
    requires Trim(path) != path && IsAbsolute(Trim(path)) && Components(root) <= Components(Trim(path))
    ensures Everything().WellFormed() && Validate(Everything(), root, path).None?
    ensures !CheckedAsUsed(Everything(), path)
  {
    EverythingIsAccepted(root, path);
    EverythingIsComparedAs(path);
    if TrimStart(path) == path {
      TrailingSpaceIsUsed(path);
      EverythingIsUsedAs(path);
    } else {
      assert IsWhitespace(path[0]);
    }
  }

  // ---- the theorem ------------------------------------------------------------

  /** The check looks at the folder that will be used, on every file system that accepts the
      path, exactly when the path has no white space around it and no `..` after a name. */
  lemma CheckedAsUsedExactly(root: string, path: string)
    requires IsAbsolute(Trim(path)) && Components(root) <= Components(Trim(path))
    ensures (forall fs: FileSystem :: fs.WellFormed() && Validate(fs, root, path).None? ==> CheckedAsUsed(fs, path))
            <==> Plain(path)
  {
    if Plain(path) {
      forall fs: FileSystem | fs.WellFormed() && Validate(fs, root, path).None?
        ensures CheckedAsUsed(fs, path)
      {
        PlainIsCheckedAsUsed(fs, root, path);
      }
    } else if Trim(path) != path {
      UntrimmedDiffers(root, path);
    } else {
      AbsoluteComponents(path);
      var fs := LinkDiverts(Components(path));
      assert Validate(fs, root, path).None? && !CheckedAsUsed(fs, path);
    }
  }
}
