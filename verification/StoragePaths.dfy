/** Folder paths of recording locations and the canonical form they are compared in. */
module StoragePaths {
  import opened Options
  import opened Whitespace

  // ---- paths ------------------------------------------------------------------

  datatype Component = RootDir | CurDir | ParentDir | Normal(name: string)

  /** A resolved place in the file system: the names from the root down. */
  type Place = seq<string>

  /** A path without `.` and `..`. */
  datatype PathBuf = PathBuf(absolute: bool, names: seq<string>)

  /** What stands between the separators. */
  function Parts(s: string): (parts: seq<string>)
    ensures parts != []
  {
    if s == "" then [""]
    else
      var front, c := Parts(s[..|s| - 1]), s[|s| - 1];
      if c == '/' then front + [""] else front[..|front| - 1] + [front[|front| - 1] + [c]]
  }

  predicate IsAbsolute(s: string) {
    s != "" && s[0] == '/'
  }

  function PartComponents(part: string): seq<Component> {
    if part == "" || part == "." then []
    else if part == ".." then [ParentDir]
    else [Normal(part)]
  }

  function AllComponents(parts: seq<string>): seq<Component> {
    if parts == [] then []
    else AllComponents(parts[..|parts| - 1]) + PartComponents(parts[|parts| - 1])
  }

  /** `Path::components`: a leading `/` or `.` is kept, other empty and `.` parts are not. */
  function Components(s: string): seq<Component> {
    (if IsAbsolute(s) then [RootDir] else if Parts(s)[0] == "." then [CurDir] else []) + AllComponents(Parts(s))
  }

  function Parent(p: Place): Place {
    if p == [] then [] else p[..|p| - 1]
  }

  function Push(out: PathBuf, c: Component): PathBuf {
    match c
    case RootDir => PathBuf(true, [])
    case CurDir => out
    case ParentDir => PathBuf(out.absolute, Parent(out.names))
    case Normal(name) => PathBuf(out.absolute, out.names + [name])
  }

  function Collapse(cs: seq<Component>): PathBuf {
    if cs == [] then PathBuf(false, []) else Push(Collapse(cs[..|cs| - 1]), cs[|cs| - 1])
  }

  function Lexical(path: string): PathBuf {
    Collapse(Components(Trim(path)))
  }

  method LexicalStoragePath(path: string) returns (out: PathBuf)
    ensures out == Lexical(path)
  {
    var cs := Components(Trim(path));
    out := PathBuf(false, []);
    for i := 0 to |cs|
      invariant out == Collapse(cs[..i])
    {
      match cs[i] {
        case CurDir =>
        case ParentDir =>
          if out.names != [] {
            out := PathBuf(out.absolute, out.names[..|out.names| - 1]);
          }
        case RootDir => out := PathBuf(true, []);
        case Normal(name) => out := PathBuf(out.absolute, out.names + [name]);
      }
      assert cs[..i + 1][..i] == cs[..i];
    }
    assert cs[..|cs|] == cs;
  }

  // ---- the file system --------------------------------------------------------

  /** A link is given by the folder or file it leads to in the end; one that leads nowhere
      counts as absent. */
  datatype Kind = Absent | Folder | File | Link(target: Place)

  datatype FileSystem = FileSystem(kind: Place -> Kind, cwd: Place) {
    ghost predicate WellFormed() {
      && kind([]) == Folder && kind(cwd) == Folder
      && (forall p, name :: kind(p + [name]) != Absent ==> kind(p) == Folder)
      && forall p, q :: kind(p) == Link(q) ==> kind(q) == Folder || kind(q) == File
    }

    /** Follows a path the way the kernel does: `..` is the parent of where a link led. */
    function Resolve(cur: Place, cs: seq<Component>): Option<Place>
      decreases |cs|
    {
      if cs == [] then Some(cur)
      else if kind(cur) != Folder then None
      else match cs[0]
        case RootDir => Resolve([], cs[1..])
        case CurDir => Resolve(cur, cs[1..])
        case ParentDir => Resolve(Parent(cur), cs[1..])
        case Normal(name) =>
          match kind(cur + [name])
          case Absent => None
          case Link(target) => Resolve(target, cs[1..])
          case _ => Resolve(cur + [name], cs[1..])
    }
  }

  function AsComponents(names: seq<string>): seq<Component> {
    seq(|names|, i requires 0 <= i < |names| => Normal(names[i]))
  }

  /** Every link on the way is replaced by its target, whether or not the rest exists. */
  function Follow(fs: FileSystem, cur: Place, names: seq<string>): Place
    decreases |names|
  {
    if names == [] then cur
    else
      var next := cur + [names[0]];
      Follow(fs, if fs.kind(next).Link? then fs.kind(next).target else next, names[1..])
  }

  function Canonical(fs: FileSystem, path: PathBuf): Place
    requires path.absolute
  {
    Follow(fs, [], path.names)
  }

  /** A relative path is followed from the working directory if its first name is there, and
      left as it is otherwise. */
  function CanonicalPath(fs: FileSystem, path: PathBuf): PathBuf {
    if path.absolute then PathBuf(true, Canonical(fs, path))
    else if path.names != [] && fs.Resolve(fs.cwd, AsComponents(path.names[..1])).Some? then
      PathBuf(true, Follow(fs, fs.cwd, path.names))
    else path
  }

  lemma {:induction false} ResolveFollows(fs: FileSystem, cur: Place, names: seq<string>, tail: seq<string>)
    requires fs.WellFormed() && fs.Resolve(cur, AsComponents(names)).Some?
    ensures Follow(fs, cur, names + tail) == Follow(fs, fs.Resolve(cur, AsComponents(names)).value, tail)
    decreases |names|
  {
    if names == [] {
      assert names + tail == tail;
    } else {
      var next := cur + [names[0]];
      assert AsComponents(names)[1..] == AsComponents(names[1..]);
      assert (names + tail)[1..] == names[1..] + tail;
      ResolveFollows(fs, if fs.kind(next).Link? then fs.kind(next).target else next, names[1..], tail);
    }
  }

  /** Below a name that is absent there is nothing to follow. */
  lemma {:induction false} NothingBelow(fs: FileSystem, cur: Place, names: seq<string>)
    requires fs.WellFormed() && names != [] && !fs.kind(cur + [names[0]]).Link?
    requires fs.kind(cur) != Folder || fs.kind(cur + [names[0]]) == Absent
    ensures Follow(fs, cur, names) == cur + names
    decreases |names|
  {
    var next := cur + [names[0]];
    if |names| > 1 {
      NothingBelow(fs, next, names[1..]);
    }
    assert cur + names == next + names[1..];
  }

  lemma {:induction false} ResolveAppend(fs: FileSystem, cur: Place, a: seq<Component>, b: seq<Component>)
    ensures fs.Resolve(cur, a + b) ==
            if fs.Resolve(cur, a).None? then None else fs.Resolve(fs.Resolve(cur, a).value, b)
    decreases |a|
  {
    if a == [] {
      assert a + b == b;
    } else {
      assert (a + b)[1..] == a[1..] + b;
      match a[0]
      case RootDir => ResolveAppend(fs, [], a[1..], b);
      case CurDir => ResolveAppend(fs, cur, a[1..], b);
      case ParentDir => ResolveAppend(fs, Parent(cur), a[1..], b);
      case Normal(name) =>
        var next := cur + [name];
        ResolveAppend(fs, if fs.kind(next).Link? then fs.kind(next).target else next, a[1..], b);
    }
  }

  function Back(names: seq<string>): seq<string> {
    if names == [] then [] else [names[|names| - 1]] + Back(names[..|names| - 1])
  }

  method PushBack(resolved: Place, tail: seq<string>) returns (r: Place)
    ensures r == resolved + Back(tail)
  {
    r := resolved;
    assert tail[..|tail|] == tail;
    for i := |tail| downto 0
      invariant r + Back(tail[..i]) == resolved + Back(tail)
    {
      assert tail[..i + 1][..i] == tail[..i];
      r := r + [tail[i]];
    }
  }

  /** From `start`, `n` names resolve, and not one more. */
  ghost predicate ResolvesUpTo(fs: FileSystem, start: Place, names: seq<string>, n: nat)
    requires n <= |names|
  {
    && fs.Resolve(start, AsComponents(names[..n])).Some?
    && (n < |names| ==> fs.Resolve(start, AsComponents(names[..n + 1])).None?)
  }

  /** Where resolution stops, following stops too. */
  lemma FollowPastTheEnd(fs: FileSystem, start: Place, names: seq<string>, n: nat)
    requires fs.WellFormed() && n <= |names| && ResolvesUpTo(fs, start, names, n)
    ensures Follow(fs, start, names) == fs.Resolve(start, AsComponents(names[..n])).value + names[n..]
  {
    var at := fs.Resolve(start, AsComponents(names[..n])).value;
    assert names == names[..n] + names[n..];
    ResolveFollows(fs, start, names[..n], names[n..]);
    if n < |names| {
      assert AsComponents(names[..n + 1]) == AsComponents(names[..n]) + [Normal(names[n])];
      ResolveAppend(fs, start, AsComponents(names[..n]), [Normal(names[n])]);
      assert [Normal(names[n])][1..] == [];
      assert names[n..][0] == names[n];
      NothingBelow(fs, at, names[n..]);
    }
  }

  lemma FirstResolves(fs: FileSystem, start: Place, names: seq<string>, n: nat)
    requires 0 < n <= |names| && fs.Resolve(start, AsComponents(names[..n])).Some?
    ensures fs.Resolve(start, AsComponents(names[..1])).Some?
  {
    assert AsComponents(names[..n]) == AsComponents(names[..1]) + AsComponents(names[1..n]);
    ResolveAppend(fs, start, AsComponents(names[..1]), AsComponents(names[1..n]));
  }

  /** Cuts names off until the rest resolves, then puts them back on. Nothing resolves when a
      relative path is used up; the root always does. */
  method CanonicalNames(fs: FileSystem, start: Place, absolute: bool, names: seq<string>) returns (r: Option<Place>)
    requires fs.WellFormed()
    ensures r.Some? <==> absolute || (names != [] && fs.Resolve(start, AsComponents(names[..1])).Some?)
    ensures r.Some? ==> r.value == Follow(fs, start, names)
  {
    var existing, tail := names, [];
    assert fs.Resolve(start, AsComponents([])) == Some(start);
    while true
      invariant existing + Back(tail) == names
      invariant |existing| < |names| ==> fs.Resolve(start, AsComponents(names[..|existing| + 1])).None?
      decreases |existing|
    {
      assert names[..|existing|] == existing && names[|existing|..] == Back(tail);
      if !absolute && existing == [] {
        return None;
      }
      var found := fs.Resolve(start, AsComponents(existing));
      if found.Some? {
        FollowPastTheEnd(fs, start, names, |existing|);
        if existing != [] {
          FirstResolves(fs, start, names, |existing|);
        }
        var place := PushBack(found.value, tail);
        return Some(place);
      }
      tail := tail + [existing[|existing| - 1]];
      existing := existing[..|existing| - 1];
    }
  }

  method CanonicalStoragePath(fs: FileSystem, path: string) returns (canonical: PathBuf)
    requires fs.WellFormed()
    ensures canonical == CanonicalPath(fs, Lexical(path))
  {
    var lexical := LexicalStoragePath(path);
    var start := if lexical.absolute then [] else fs.cwd;
    var place := CanonicalNames(fs, start, lexical.absolute, lexical.names);
    return if place.Some? then PathBuf(true, place.value) else lexical;
  }
}
