/** For which paths the overlap check can be deceived: two locations that are one folder on disk,
    each accepted beside the other. */
module HiddenOverlap {
  import opened Options
  import opened StorageFolders
  import opened StoragePaths
  import opened StorageRuns
  import opened StorageTrust
  import opened Storages
  import opened Whitespace

  /** On some file system, and beside some plain path, the path is accepted although both are
      one folder. */
  ghost predicate HidesOverlap(root: string, path: string) {
    exists fs: FileSystem, other: string :: OneFolderTwice(fs, root, path, other)
  }

  ghost predicate OneFolderTwice(fs: FileSystem, root: string, path: string, other: string) {
    && fs.WellFormed() && Plain(other)
    && Validate(fs, root, path).None? && Validate(fs, root, other).None?
    && FolderOf(fs, path).Some? && FolderOf(fs, path) == FolderOf(fs, other)
    && Apart(CanonicalOf(fs, path), CanonicalOf(fs, other))
  }

  // ---- a neighbour behind a link of its own -----------------------------------

  lemma AddPart(t: string, name: string)
    requires IsAbsolute(t) && '/' !in name
    ensures IsAbsolute(t + ("/" + name))
    ensures Components(t + ("/" + name)) == Components(t) + PartComponents(name)
  {
    var slashed := t + "/";
    assert slashed[..|slashed| - 1] == t && t + ("/" + name) == slashed + name;
    PartsOfExtended(slashed, name);
    assert "" + name == name;
    assert Parts(slashed + name) == Parts(t) + [name];
    ComponentsByPart(slashed + name);
  }

  predicate Ordinary(name: string) {
    name != "" && name != "." && name != ".." && '/' !in name && !IsWhitespace(name[|name| - 1])
  }

  lemma Untouched(path: string)
    requires IsAbsolute(path) && !IsWhitespace(path[|path| - 1])
    ensures Trim(path) == path
  {
  }

  /** `base` with one more link, under a name that occurs nowhere else. */
  function Beside(base: FileSystem, at: Place, to: Place): FileSystem {
    FileSystem((p: Place) => if p == at then Link(to) else if at <= p then Absent else base.kind(p), base.cwd)
  }

  /** No link of `fs` leads to a place with that name in it. */
  ghost predicate LinksAvoid(fs: FileSystem, b: string) {
    forall p :: fs.kind(p).Link? ==> b !in fs.kind(p).target
  }

  lemma BesideIsWellFormed(base: FileSystem, at: Place, b: string, to: Place)
    requires base.WellFormed() && LinksAvoid(base, b) && b !in at && b !in to && b !in base.cwd
    requires base.kind(at) == Folder && base.kind(to) == Folder
    ensures Beside(base, at + [b], to).WellFormed()
  {
    var fs, link := Beside(base, at + [b], to), at + [b];
    assert link[|at|] == b;
    assert forall p: Place :: b !in p ==> fs.kind(p) == base.kind(p);
    forall p: Place, name: string | fs.kind(p + [name]) != Absent
      ensures fs.kind(p) == Folder
    {
      if p + [name] == link {
        assert p == (p + [name])[..|p|] == at;
      } else {
        assert link <= p ==> link <= p + [name];
      }
    }
  }

  lemma {:induction false} SameWalk(base: FileSystem, at: Place, b: string, to: Place, cur: Place, cs: seq<Component>)
    requires LinksAvoid(base, b) && b !in cur && Without(cs, b)
    ensures Beside(base, at + [b], to).Resolve(cur, cs) == base.Resolve(cur, cs)
    ensures base.Resolve(cur, cs).Some? ==> b !in base.Resolve(cur, cs).value
    decreases |cs|
  {
    if cs != [] {
      assert (at + [b])[|at|] == b;
      match cs[0]
      case RootDir => SameWalk(base, at, b, to, [], cs[1..]);
      case CurDir => SameWalk(base, at, b, to, cur, cs[1..]);
      case ParentDir => SameWalk(base, at, b, to, Parent(cur), cs[1..]);
      case Normal(name) =>
        var next := cur + [name];
        SameWalk(base, at, b, to, if base.kind(next).Link? then base.kind(next).target else next, cs[1..]);
    }
  }

  lemma {:induction false} SameFollow(base: FileSystem, at: Place, b: string, to: Place, cur: Place, names: seq<string>)
    requires LinksAvoid(base, b) && b !in cur && b !in names
    ensures Follow(Beside(base, at + [b], to), cur, names) == Follow(base, cur, names)
    decreases |names|
  {
    if names != [] {
      assert (at + [b])[|at|] == b;
      var next := cur + [names[0]];
      SameFollow(base, at, b, to, if base.kind(next).Link? then base.kind(next).target else next, names[1..]);
    }
  }

  /** The name of the neighbour, directly in the media root. */
  function NeighbourIn(root: string, b: string): string {
    root + ("/" + b)
  }

  lemma NeighbourIsPlain(root: string, b: string)
    requires IsAbsolute(root) && !ClimbsOut(Components(root)) && Ordinary(b)
    ensures var other := NeighbourIn(root, b);
            Plain(other) && IsAbsolute(other) && Components(other) == Components(root) + [Normal(b)]
  {
    AddPart(root, b);
    Untouched(NeighbourIn(root, b));
    var cs := Components(root) + [Normal(b)];
    assert cs[..|cs| - 1] == Components(root);
  }

  /** What a file system must give for a neighbour to be put into it. */
  ghost predicate Prepared(base: FileSystem, b: string) {
    base.WellFormed() && LinksAvoid(base, b) && b !in base.cwd
  }

  ghost predicate LeadsTo(fs: FileSystem, cs: seq<Component>, at: Place) {
    fs.Resolve([], cs) == Some(at) && fs.kind(at) == Folder
  }

  lemma KindBeside(base: FileSystem, at: Place, b: string, to: Place, p: Place)
    requires b !in p
    ensures Beside(base, at + [b], to).kind(p) == base.kind(p)
  {
    assert (at + [b])[|at|] == b;
  }

  lemma NeighbourLeadsThere(base: FileSystem, rs: seq<Component>, b: string, at: Place, to: Place)
    requires Prepared(base, b) && Without(rs, b) && b !in to
    requires LeadsTo(base, rs, at) && base.kind(to) == Folder
    ensures Beside(base, at + [b], to).WellFormed()
    ensures LeadsTo(Beside(base, at + [b], to), rs + [Normal(b)], to)
  {
    var fs := Beside(base, at + [b], to);
    SameWalk(base, at, b, to, [], rs);
    BesideIsWellFormed(base, at, b, to);
    ResolveAppend(fs, [], rs, [Normal(b)]);
    KindBeside(base, at, b, to, at);
    KindBeside(base, at, b, to, to);
    assert [Normal(b)][1..] == [];
  }

  lemma PlainPlace(fs: FileSystem, root: string, path: string, to: Place)
    requires fs.WellFormed() && Plain(path) && IsAbsolute(path) && Components(root) <= Components(path)
    requires LeadsTo(fs, Components(path), to)
    ensures Validate(fs, root, path).None? && FolderOf(fs, path) == Some(to) && CanonicalOf(fs, path) == ["/"] + to
  {
    PlainIsCheckedAsUsed(fs, root, path);
  }

  lemma Neighbour(base: FileSystem, root: string, b: string, at: Place, to: Place)
    requires Prepared(base, b) && b !in to
    requires IsAbsolute(root) && !ClimbsOut(Components(root)) && Ordinary(b) && Without(Components(root), b)
    requires LeadsTo(base, Components(root), at) && base.kind(to) == Folder
    ensures var fs, other := Beside(base, at + [b], to), NeighbourIn(root, b);
            && fs.WellFormed() && Plain(other) && Validate(fs, root, other).None?
            && FolderOf(fs, other) == Some(to) && CanonicalOf(fs, other) == ["/"] + to
  {
    NeighbourLeadsThere(base, Components(root), b, at, to);
    NeighbourIsPlain(root, b);
    PlainPlace(Beside(base, at + [b], to), root, NeighbourIn(root, b), to);
  }

  /** With the neighbour added the path still leads to where it did. */
  lemma SameLeads(base: FileSystem, at: Place, b: string, to: Place, cs: seq<Component>, p: Place)
    requires Prepared(base, b) && Without(cs, b) && LeadsTo(base, cs, p)
    ensures b !in p && LeadsTo(Beside(base, at + [b], to), cs, p)
  {
    SameWalk(base, at, b, to, [], cs);
    KindBeside(base, at, b, to, p);
  }

  lemma SameCanonical(base: FileSystem, at: Place, b: string, to: Place, path: string)
    requires Prepared(base, b) && Without(Components(Trim(path)), b) && Lexical(path).absolute
    ensures CanonicalOf(Beside(base, at + [b], to), path) == ["/"] + Follow(base, [], Lexical(path).names)
  {
    CollapseWithout(Components(Trim(path)), b);
    SameFollow(base, at, b, to, [], Lexical(path).names);
  }

  /** What it takes to deceive the check: a file system on which the path leads apart from where
      it is compared. */
  lemma NeighbourHides(base: FileSystem, root: string, path: string, b: string, checked: Place, to: Place)
    requires Prepared(base, b) && Ordinary(b)
    requires IsAbsolute(root) && !ClimbsOut(Components(root))
    requires IsAbsolute(path) && IsAbsolute(Trim(path)) && Components(root) <= Components(Trim(path))
    requires Without(Components(path), b) && Without(Components(Trim(path)), b)
    requires LeadsTo(base, Components(path), to) && LeadsTo(base, Components(Trim(path)), checked)
    requires Lexical(path).absolute && Apart(Follow(base, [], Lexical(path).names), to)
    ensures HidesOverlap(root, path)
  {
    var rs, ts := Components(root), Components(Trim(path));
    assert ts == rs + ts[|rs|..];
    ResolveAppend(base, [], rs, ts[|rs|..]);
    var at := base.Resolve([], rs).value;
    SameLeads(base, at, b, to, Components(path), to);
    SameLeads(base, at, b, to, ts, checked);
    Neighbour(base, root, b, at, to);
    SameCanonical(base, at, b, to, path);
    ApartFromTheRoot(Follow(base, [], Lexical(path).names), to);
    Hidden(Beside(base, at + [b], to), root, path, NeighbourIn(root, b), checked, to,
           Follow(base, [], Lexical(path).names));
  }

  lemma Hidden(fs: FileSystem, root: string, path: string, other: string, checked: Place, to: Place, compared: Place)
    requires fs.WellFormed() && IsAbsolute(path) && IsAbsolute(Trim(path))
    requires Components(root) <= Components(Trim(path))
    requires LeadsTo(fs, Components(path), to) && LeadsTo(fs, Components(Trim(path)), checked)
    requires CanonicalOf(fs, path) == ["/"] + compared && Apart(["/"] + compared, ["/"] + to)
    requires Plain(other) && Validate(fs, root, other).None?
    requires FolderOf(fs, other) == Some(to) && CanonicalOf(fs, other) == ["/"] + to
    ensures HidesOverlap(root, path)
  {
    assert OneFolderTwice(fs, root, path, other);
  }

  // ---- a `..` behind a link ---------------------------------------------------

  /** Where a walk has come to that left a link's target by a `..`: `depth` names `z` and then
      as many names of its own as the comparison has added, at most, since before the link. */
  ghost predicate Strayed(link: Place, at: Place, compared: Place, z: string, depth: nat) {
    && Deep(at, z, depth)
    && |at| - depth <= |compared| < |link| + |at| - depth
  }

  lemma StrayedUp(link: Place, at: Place, compared: Place, z: string, depth: nat) returns (depth': nat)
    requires Strayed(link, at, compared, z, depth) && depth > 0 && link != []
    ensures Strayed(link, Parent(at), Parent(compared), z, depth') && depth - 1 <= depth' <= depth
  {
    depth' := if |at| > depth then depth else depth - 1;
  }

  lemma StrayStep(link: Place, target: Place, at: Place, compared: PathBuf, z: string, depth: nat, c: Component)
    returns (at': Place, depth': nat)
    requires link != [] && link[0] != z && (c.ParentDir? || c.Normal?) && Without([c], z)
    requires Strayed(link, at, compared.names, z, depth) && depth > 0
    ensures OneLink(link, target).Resolve(at, [c]) == Some(at')
    ensures Strayed(link, at', Push(compared, c).names, z, depth') && depth - 1 <= depth' <= depth
    ensures c.Normal? ==> |at'| > depth'
  {
    assert at[0] == z && [c][0] == c;
    if c.ParentDir? {
      at' := Parent(at);
      depth' := StrayedUp(link, at, compared.names, z, depth);
    } else {
      at', depth' := at + [c.name], depth;
    }
  }

  lemma {:induction false} WalkStrays(link: Place, target: Place, up: seq<Component>, rest: seq<Component>, z: string, n: nat)
    returns (at: Place, depth: nat)
    requires link != [] && link[0] != z && |rest| < n && Without(rest, z)
    requires Moves(rest)
    requires |Collapse(up).names| < |link|
    ensures OneLink(link, target).Resolve(seq(n, _ => z), rest) == Some(at)
    ensures Strayed(link, at, Collapse(up + rest).names, z, depth) && n - |rest| <= depth <= n
    ensures rest != [] && rest[|rest| - 1].Normal? ==> |at| > depth
    decreases |rest|
  {
    if rest == [] {
      at, depth := seq(n, _ => z), n;
      assert up + rest == up;
    } else {
      var front, last := rest[..|rest| - 1], rest[|rest| - 1];
      at, depth := WalkStrays(link, target, up, front, z, n);
      assert rest == front + [last] && (up + rest)[..|up + rest| - 1] == up + front;
      ResolveAppend(OneLink(link, target), seq(n, _ => z), front, [last]);
      at, depth := StrayStep(link, target, at, Collapse(up + front), z, depth, last);
    }
  }

  lemma {:induction false} FollowPastLink(link: Place, target: Place, cur: Place, names: seq<string>)
    requires !(link <= cur + names)
    ensures Follow(OneLink(link, target), cur, names) == cur + names
    decreases |names|
  {
    if names == [] {
      assert cur + names == cur;
    } else {
      var next := cur + [names[0]];
      assert cur + names == next + names[1..];
      assert next <= cur + names;
      FollowPastLink(link, target, next, names[1..]);
    }
  }

  lemma FollowThroughLink(link: Place, target: Place, tail: seq<string>)
    requires link != [] && target != [] && link[0] != target[0]
    ensures Follow(OneLink(link, target), [], link + tail) == target + tail
  {
    var fs := OneLink(link, target);
    OneLinkIsWellFormed(link, target);
    WalkToLink(link, target, |link|);
    assert link[..|link|] == link;
    ResolveFollows(fs, [], link, tail);
    assert (target + tail)[0] == target[0];
    FollowPastLink(link, target, target, tail);
  }

  /** Apart from what the names are compared as, which is without `z` or starts with more of it. */
  lemma StrayedApart(link: Place, at: Place, names: seq<string>, z: string, depth: nat, n: nat)
    requires link != [] && link[0] != z && 0 < depth < n && Deep(at, z, depth)
    requires names != [] && names[0] != z
    requires |at| > depth || |names| < |link|
    ensures Apart(Follow(OneLink(link, seq(n, _ => z)), [], names), at)
  {
    var target := seq(n, _ => z);
    var compared := Follow(OneLink(link, target), [], names);
    assert target[0] == z && at[0] == z && [] + names == names;
    if link <= names {
      var tail := names[|link|..];
      assert names == link + tail;
      FollowThroughLink(link, target, tail);
      assert compared == target + tail && compared[depth] == z;
    } else {
      FollowPastLink(link, target, [], names);
    }
  }

  lemma OneLinkIsPrepared(link: Place, target: Place, b: string)
    requires link != [] && !(link <= target) && b !in target
    ensures Prepared(OneLink(link, target), b)
  {
    OneLinkIsWellFormed(link, target);
  }

  lemma LinkBefore(before: seq<Component>, z: string)
    requires Steps(before) && !ClimbsOut(before) && HasName(before) && Without(before, z)
    ensures Collapse(before).names != [] && Collapse(before).names[0] != z
  {
    CollapseWithout(before, z);
  }

  /** A path that climbs out of `before`, and goes on. */
  function Climb(before: seq<Component>, rest: seq<Component>): seq<Component> {
    before + [ParentDir] + rest
  }

  /** The walk goes through the link, whose names the comparison takes back by the `..`. */
  lemma ClimbWalk(before: seq<Component>, rest: seq<Component>, z: string, n: nat) returns (at: Place, depth: nat)
    requires Steps(before) && !ClimbsOut(before) && HasName(before) && Without(before, z)
    requires Moves(rest) && Without(rest, z) && |rest| + 1 < n
    ensures LeadsTo(OneLink(Collapse(before).names, seq(n, _ => z)), Climb(before, rest), at)
    ensures Strayed(Collapse(before).names, at, Collapse(Climb(before, rest)).names, z, depth) && 0 < depth < n
    ensures rest != [] && rest[|rest| - 1].Normal? ==> |at| > depth
  {
    var link, target := Collapse(before).names, seq(n, _ => z);
    LinkBefore(before, z);
    assert target[0] == z;
    WalkThroughLink(before, rest, link, target);
    assert Climb(before, rest) == before + ([ParentDir] + rest);
    assert Parent(target) == seq(n - 1, _ => z);
    at, depth := WalkStrays(link, target, before + [ParentDir], rest, z, n - 1);
    assert at[0] == z;
  }

  lemma WithoutBoth(cs: seq<Component>, ts: seq<Component>, z: string)
    requires Without(cs + ts, z)
    ensures Without(cs, z) && Without(ts, z)
  {
    assert forall i :: 0 <= i < |cs| ==> cs[i] == (cs + ts)[i];
    assert forall i :: 0 <= i < |ts| ==> ts[i] == (cs + ts)[|cs| + i];
  }

  /** A name for the link's target and one for the neighbour. */
  lemma TwoNames(cs: seq<Component>, ts: seq<Component>) returns (z: string, b: string)
    ensures Without(cs, z) && Without(ts, z) && Without(cs, b) && Without(ts, b)
    ensures z != b && Ordinary(b)
  {
    z := FreshName(cs + ts, 1);
    b := FreshName(cs + ts, |z| + 3);
    WithoutBoth(cs, ts, z);
    WithoutBoth(cs, ts, b);
  }

  /** The two forms of a path lead to folders of `base`, and the untrimmed one apart from where
      the trimmed one is compared. */
  ghost predicate LeadsApart(base: FileSystem, cs: seq<Component>, ts: seq<Component>, checked: Place, to: Place) {
    && LeadsTo(base, cs, to) && LeadsTo(base, ts, checked)
    && Apart(Follow(base, [], Collapse(ts).names), to)
  }

  ghost predicate Deceives(cs: seq<Component>, ts: seq<Component>) {
    exists base: FileSystem, b: string, checked: Place, to: Place ::
      LeadsApart(base, cs, ts, checked, to) && Prepared(base, b) && Ordinary(b) && Without(cs, b) && Without(ts, b)
  }

  lemma ClimberLeadsApart(before: seq<Component>, a: seq<Component>, t: seq<Component>, z: string)
    returns (base: FileSystem, checked: Place, to: Place)
    requires Steps(before) && !ClimbsOut(before) && HasName(before) && Moves(a) && Moves(t)
    requires Without(before, z) && Without(a, z) && Without(t, z)
    requires a == t || (a != [] && a[|a| - 1].Normal?)
    requires Collapse(Climb(before, t)).names != [] && Collapse(Climb(before, t)).names[0] != z
    ensures LeadsApart(base, Climb(before, a), Climb(before, t), checked, to)
    ensures forall b: string :: b != z ==> Prepared(base, b)
  {
    var n := |a| + |t| + 2;
    var link, target := Collapse(before).names, seq(n, _ => z);
    var depth: nat, other: nat;
    to, depth := ClimbWalk(before, a, z, n);
    checked, other := ClimbWalk(before, t, z, n);
    LinkBefore(before, z);
    StrayedApart(link, to, Collapse(Climb(before, t)).names, z, depth, n);
    base := OneLink(link, target);
    assert target[0] == z;
    forall b: string | b != z
      ensures Prepared(base, b)
    {
      OneLinkIsPrepared(link, target, b);
    }
  }

  lemma ClimbWithout(before: seq<Component>, rest: seq<Component>, z: string)
    requires Without(Climb(before, rest), z)
    ensures Without(before, z) && Without(rest, z)
    ensures Collapse(Climb(before, rest)).names != [] ==> Collapse(Climb(before, rest)).names[0] != z
  {
    WithoutBoth(before + [ParentDir], rest, z);
    WithoutBoth(before, [ParentDir], z);
    CollapseWithout(Climb(before, rest), z);
  }

  /** A path and its trimmed form that climb the same way. */
  lemma ClimberDeceives(before: seq<Component>, a: seq<Component>, t: seq<Component>)
    requires Steps(before) && !ClimbsOut(before) && HasName(before) && Moves(a) && Moves(t)
    requires a == t || (a != [] && a[|a| - 1].Normal?)
    requires Collapse(Climb(before, t)).names != []
    ensures Deceives(Climb(before, a), Climb(before, t))
  {
    var z, b := TwoNames(Climb(before, a), Climb(before, t));
    ClimbWithout(before, a, z);
    ClimbWithout(before, t, z);
    var base, checked, to := ClimberLeadsApart(before, a, t, z);
    assert Prepared(base, b);
  }

  /** Cut at the first `..` after a name. */
  lemma CutAtClimb(cs: seq<Component>) returns (before: seq<Component>, rest: seq<Component>)
    requires Steps(cs) && ClimbsOut(cs)
    ensures cs == Climb(before, rest) && Steps(before) && !ClimbsOut(before) && HasName(before) && Moves(rest)
  {
    var j := FirstClimb(cs);
    before, rest := cs[..j], cs[j + 1..];
    assert forall i :: 0 <= i < |rest| ==> rest[i] == cs[j + 1 + i];
  }

  // ---- white space at the end -------------------------------------------------

  lemma FirstIsNot(at: Place, name: string, z: string)
    requires (forall i :: 0 <= i < |at| ==> at[i] != z) && name != z
    ensures var link := at + [name]; link != [] && link[0] != z && !(link <= [z])
  {
  }

  /** The walk to the folder in which the link is. */
  lemma WalkBefore(before: seq<Component>, at: Place, name: string, z: string)
    requires Steps(before) && !ClimbsOut(before) && at == Collapse(before).names
    requires (forall i :: 0 <= i < |at| ==> at[i] != z) && name != z
    ensures OneLink(at + [name], [z]).Resolve([], before) == Some(at)
  {
    var link := at + [name];
    FirstIsNot(at, name, z);
    OneLinkIsWellFormed(link, [z]);
    PlainResolvesLexically(OneLink(link, [z]), before);
    WalkToLink(link, [z], |at|);
    assert link[..|at|] == at;
  }

  function After(at: Place, c: Component): Place {
    if c.ParentDir? then Parent(at) else if c.Normal? then at + [c.name] else at
  }

  lemma CollapseLast(before: seq<Component>, c: Component)
    requires c.ParentDir? || c.Normal?
    ensures Collapse(before + [c]).names == After(Collapse(before).names, c)
  {
    assert (before + [c])[..|before|] == before;
  }

  /** The last step, past the link or through it. */
  lemma StepAt(at: Place, name: string, z: string, c: Component)
    requires c.ParentDir? || c.Normal?
    ensures OneLink(at + [name], [z]).Resolve(at, [c])
            == Some(if c == Normal(name) then [z] else After(at, c))
  {
    var link := at + [name];
    assert [c][1..] == [] && link[|at|] == name;
    if c.Normal? && c.name != name {
      assert (at + [c.name])[|at|] != link[|at|];
    }
  }

  lemma LastStep(before: seq<Component>, at: Place, name: string, z: string, c: Component)
    requires Steps(before) && !ClimbsOut(before) && at == Collapse(before).names && (c.ParentDir? || c.Normal?)
    requires (forall i :: 0 <= i < |at| ==> at[i] != z) && name != z
    ensures OneLink(at + [name], [z]).Resolve([], before + [c])
            == Some(if c == Normal(name) then [z] else Collapse(before + [c]).names)
  {
    WalkBefore(before, at, name, z);
    var fs := OneLink(at + [name], [z]);
    ResolveAppend(fs, [], before, [c]);
    assert fs.Resolve([], before + [c]) == fs.Resolve(at, [c]);
    StepAt(at, name, z, c);
    CollapseLast(before, c);
  }

  predicate IsEnd(c: seq<Component>, name: string) {
    c == [] || c == [ParentDir] || (|c| == 1 && c[0].Normal? && c[0].name != name)
  }

  lemma EndIsNotLink(before: seq<Component>, end: seq<Component>, name: string)
    requires IsEnd(end, name)
    ensures !(Collapse(before).names + [name] <= Collapse(before + end).names)
  {
    var at := Collapse(before).names;
    if end == [] {
      assert before + end == before;
    } else {
      assert (before + end)[..|before|] == before;
      assert (at + [name])[|at|] == name;
    }
  }

  lemma TrimmedLeads(before: seq<Component>, at: Place, end: seq<Component>, name: string, z: string)
    requires Steps(before) && !ClimbsOut(before) && at == Collapse(before).names && IsEnd(end, name)
    requires (forall i :: 0 <= i < |at| ==> at[i] != z) && name != z
    ensures LeadsTo(OneLink(at + [name], [z]), before + end, Collapse(before + end).names)
  {
    if end == [] {
      WalkBefore(before, at, name, z);
      assert before + end == before;
    } else {
      LastStep(before, at, name, z, end[0]);
      assert end == [end[0]];
    }
    EndIsNotLink(before, end, name);
  }

  lemma UntrimmedLeads(before: seq<Component>, at: Place, name: string, z: string)
    requires Steps(before) && !ClimbsOut(before) && at == Collapse(before).names
    requires (forall i :: 0 <= i < |at| ==> at[i] != z) && name != z
    ensures LeadsTo(OneLink(at + [name], [z]), before + [Normal(name)], [z])
  {
    LastStep(before, at, name, z, Normal(name));
    FirstIsNot(at, name, z);
  }

  /** One link at the untrimmed name. */
  lemma UntrimmedLeadsApart(before: seq<Component>, at: Place, end: seq<Component>, name: string, z: string)
    requires Steps(before) && !ClimbsOut(before) && at == Collapse(before).names && IsEnd(end, name)
    requires Without(before + [Normal(name)], z) && Without(before + end, z) && Collapse(before + end).names != []
    ensures LeadsApart(OneLink(at + [name], [z]), before + [Normal(name)], before + end, Collapse(before + end).names, [z])
    ensures at + [name] != [] && !(at + [name] <= [z])
  {
    var checked := Collapse(before + end).names;
    WithoutBoth(before, [Normal(name)], z);
    assert Normal(name) == [Normal(name)][0];
    CollapseWithout(before, z);
    CollapseWithout(before + end, z);
    FirstIsNot(at, name, z);
    TrimmedLeads(before, at, end, name, z);
    UntrimmedLeads(before, at, name, z);
    EndIsNotLink(before, end, name);
    assert [] + checked == checked && checked[0] != z;
    FollowPastLink(at + [name], [z], [], checked);
  }

  lemma UntrimmedDeceives(before: seq<Component>, end: seq<Component>, name: string)
    requires Steps(before) && !ClimbsOut(before) && IsEnd(end, name) && Collapse(before + end).names != []
    ensures Deceives(before + [Normal(name)], before + end)
  {
    var z, b := TwoNames(before + [Normal(name)], before + end);
    var at := Collapse(before).names;
    UntrimmedLeadsApart(before, at, end, name, z);
    OneLinkIsPrepared(at + [name], [z], b);
  }

  // ---- the theorem ------------------------------------------------------------

  lemma DeceivingHides(root: string, path: string)
    requires IsAbsolute(root) && !ClimbsOut(Components(root))
    requires IsAbsolute(path) && IsAbsolute(Trim(path)) && Components(root) <= Components(Trim(path))
    requires Deceives(Components(path), Components(Trim(path)))
    ensures HidesOverlap(root, path)
  {
    var cs, ts := Components(path), Components(Trim(path));
    var base: FileSystem, b: string, checked: Place, to: Place :|
      LeadsApart(base, cs, ts, checked, to) && Prepared(base, b) && Ordinary(b) && Without(cs, b) && Without(ts, b);
    AbsoluteComponents(Trim(path));
    AbsoluteCollapses(ts);
    NeighbourHides(base, root, path, b, checked, to);
  }

  lemma PlainHidesNothing(fs: FileSystem, root: string, path: string, other: string)
    requires Plain(path) || Lexical(path).names == []
    ensures !OneFolderTwice(fs, root, path, other)
  {
    if fs.WellFormed() && Plain(other) && Validate(fs, root, path).None? && Validate(fs, root, other).None? {
      PlainIsCheckedAsUsed(fs, root, other);
      AcceptedIsAbsolute(fs, root, path);
      if Plain(path) {
        PlainIsCheckedAsUsed(fs, root, path);
      } else {
        assert CanonicalOf(fs, path) == ["/"] <= CanonicalOf(fs, other);
      }
    }
  }

  lemma ClimbingHides(root: string, path: string)
    requires IsAbsolute(root) && !ClimbsOut(Components(root))
    requires IsAbsolute(path) && Trim(path) == path && Components(root) <= Components(path)
    requires ClimbsOut(Components(path)) && Lexical(path).names != []
    ensures HidesOverlap(root, path)
  {
    AbsoluteComponents(path);
    var before, rest := CutAtClimb(Components(path));
    ClimberDeceives(before, rest, rest);
    DeceivingHides(root, path);
  }

  lemma ExtendedPart(last: string, w: string)
    requires w != "" && IsWhitespace(w[|w| - 1])
    ensures IsEnd(PartComponents(last), last + w) && PartComponents(last + w) == [Normal(last + w)]
  {
    var name := last + w;
    assert name[|name| - 1] == w[|w| - 1];
    assert |name| > |last|;
  }

  lemma PartsAreSteps(parts: seq<string>)
    ensures Steps([RootDir] + AllComponents(parts))
  {
    PartsAreComponents(parts);
  }

  /** White space behind the last part makes a name of it. */
  lemma UntrimmedForm(t: string, w: string) returns (before: seq<Component>, end: seq<Component>, name: string)
    requires IsAbsolute(t) && w != "" && forall i :: 0 <= i < |w| ==> IsWhitespace(w[i])
    ensures Components(t) == before + end && Components(t + w) == before + [Normal(name)]
    ensures Steps(before) && IsEnd(end, name)
  {
    var parts, parts' := Parts(t), Parts(t + w);
    var front, last := parts[..|parts| - 1], parts[|parts| - 1];
    PartsOfExtended(t, w);
    assert parts'[..|parts'| - 1] == front && parts'[|parts'| - 1] == last + w;
    ComponentsByPart(t);
    ComponentsByPart(t + w);
    PartsAreSteps(front);
    ExtendedPart(last, w);
    before, end, name := [RootDir] + AllComponents(front), PartComponents(last), last + w;
  }

  lemma EitherEndDeceives(before: seq<Component>, end: seq<Component>, name: string)
    requires Steps(before) && Steps(before + end) && Steps(before + [Normal(name)]) && IsEnd(end, name)
    requires Collapse(before + end).names != []
    ensures Deceives(before + [Normal(name)], before + end)
  {
    if ClimbsOut(before) {
      var up, rest := CutAtClimb(before);
      assert Climb(up, rest + [Normal(name)]) == before + [Normal(name)] && Climb(up, rest + end) == before + end;
      ClimberDeceives(up, rest + [Normal(name)], rest + end);
    } else {
      UntrimmedDeceives(before, end, name);
    }
  }

  lemma WhiteSpaceDeceives(t: string, w: string)
    requires IsAbsolute(t) && w != "" && forall i :: 0 <= i < |w| ==> IsWhitespace(w[i])
    requires Collapse(Components(t)).names != []
    ensures Deceives(Components(t + w), Components(t))
  {
    var before, end, name := UntrimmedForm(t, w);
    AbsoluteComponents(t);
    AbsoluteComponents(t + w);
    EitherEndDeceives(before, end, name);
  }

  lemma UntrimmedHides(root: string, path: string)
    requires IsAbsolute(root) && !ClimbsOut(Components(root))
    requires IsAbsolute(path) && Trim(path) != path && IsAbsolute(Trim(path))
    requires Components(root) <= Components(Trim(path)) && Lexical(path).names != []
    ensures HidesOverlap(root, path)
  {
    var t := Trim(path);
    TrimEndCuts(path);
    assert path == t + path[|t|..];
    WhiteSpaceDeceives(t, path[|t|..]);
    DeceivingHides(root, path);
  }

  /** The check can be deceived about a path exactly when the path is absolute as stored, has
      white space at its end or a `..` after a name, and is not compared as the root of the
      whole file system. */
  lemma HidesOverlapExactly(root: string, path: string)
    requires IsAbsolute(root) && !ClimbsOut(Components(root))
    requires IsAbsolute(Trim(path)) && Components(root) <= Components(Trim(path))
    ensures HidesOverlap(root, path) <==> IsAbsolute(path) && !Plain(path) && Lexical(path).names != []
  {
    if IsAbsolute(path) && !Plain(path) && Lexical(path).names != [] {
      if Trim(path) == path {
        ClimbingHides(root, path);
      } else {
        UntrimmedHides(root, path);
      }
    } else {
      forall fs: FileSystem, other: string
        ensures !OneFolderTwice(fs, root, path, other)
      {
        if IsAbsolute(path) {
          PlainHidesNothing(fs, root, path, other);
        }
      }
    }
  }
}
