/** Whether the folder a location is checked as is the folder its recordings go to. */
module StorageFolders {
  import opened Options
  import opened Whitespace
  import opened StoragePaths

  datatype PathError = Empty | Relative | Outside | NotAFolder | ParentNotAFolder | ParentMissing

  /** Text that ends in a separator, or in `.`, names a folder or nothing. */
  predicate EndsAsFolder(text: string) {
    var parts := Parts(text);
    parts[|parts| - 1] == "" || parts[|parts| - 1] == "."
  }

  /** What asking the system about a path finds. */
  function Metadata(fs: FileSystem, text: string): Option<Place> {
    var found := fs.Resolve([], Components(text));
    if found.Some? && fs.kind(found.value) != Folder && EndsAsFolder(text) then None else found
  }

  /** What must be there: a folder, or a folder to create it in. */
  function DiskRefusal(fs: FileSystem, root: string, trimmed: string): (r: Option<PathError>)
    ensures r.Some? ==> r.value == NotAFolder || r.value == ParentNotAFolder || r.value == ParentMissing
  {
    var cs := Components(trimmed);
    var meta := Metadata(fs, trimmed);
    if meta.Some? then
      if fs.kind(meta.value) == Folder then None else Some(NotAFolder)
    else
      var parent := fs.Resolve([], if |cs| > 1 then cs[..|cs| - 1] else Components(root));
      if parent.None? then Some(ParentMissing)
      else if fs.kind(parent.value) == Folder then None
      else Some(ParentNotAFolder)
  }

  /** The checks on a new location's path, made on the trimmed text. */
  function Validate(fs: FileSystem, root: string, path: string): Option<PathError> {
    var trimmed := Trim(path);
    if trimmed == "" then Some(Empty)
    else if !IsAbsolute(trimmed) then Some(Relative)
    else if !(Components(root) <= Components(trimmed)) then Some(Outside)
    else DiskRefusal(fs, root, trimmed)
  }

  /** The folder a path leads to; a last name that does not exist yet is created in its parent. */
  function FolderAt(fs: FileSystem, cs: seq<Component>): Option<Place> {
    var meta := fs.Resolve([], cs);
    if meta.Some? || cs == [] then meta
    else
      var parent, last := fs.Resolve([], cs[..|cs| - 1]), cs[|cs| - 1];
      if parent.Some? && last.Normal? then Some(parent.value + [last.name]) else None
  }

  /** Where recordings go: the stored text, untrimmed, as the kernel resolves it. A relative
      path names no fixed folder. */
  function FolderOf(fs: FileSystem, stored: string): Option<Place> {
    if IsAbsolute(stored) then FolderAt(fs, Components(stored)) else None
  }

  predicate Moves(cs: seq<Component>) {
    forall i :: 0 <= i < |cs| ==> cs[i].ParentDir? || cs[i].Normal?
  }

  /** The components of an absolute path. */
  predicate Steps(cs: seq<Component>) {
    cs != [] && cs[0] == RootDir && forall i :: 1 <= i < |cs| ==> cs[i].ParentDir? || cs[i].Normal?
  }

  ghost predicate HasName(cs: seq<Component>) {
    exists i :: 0 <= i < |cs| && cs[i].Normal?
  }

  /** A `..` after a name: lexically it cancels the name, on disk it leaves where a link led. */
  ghost predicate ClimbsOut(cs: seq<Component>) {
    cs != []
    && (ClimbsOut(cs[..|cs| - 1]) || (cs[|cs| - 1].ParentDir? && HasName(cs[..|cs| - 1])))
  }

  ghost predicate Plain(path: string) {
    Trim(path) == path && !ClimbsOut(Components(path))
  }

  lemma {:induction false} PartsAreComponents(parts: seq<string>)
    ensures forall c :: c in AllComponents(parts) ==> c.ParentDir? || c.Normal?
    decreases |parts|
  {
    if parts != [] {
      PartsAreComponents(parts[..|parts| - 1]);
    }
  }

  /** A path without `..` after a name resolves as its lexical form does. */
  lemma {:induction false} PlainResolvesLexically(fs: FileSystem, cs: seq<Component>)
    requires fs.WellFormed() && Steps(cs) && !ClimbsOut(cs)
    ensures Collapse(cs).absolute
    ensures HasName(cs) || Collapse(cs).names == []
    ensures fs.Resolve([], cs) == fs.Resolve([], AsComponents(Collapse(cs).names))
    decreases |cs|
  {
    var front, last := cs[..|cs| - 1], cs[|cs| - 1];
    if front == [] {
      assert cs == [RootDir];
      RootIsLexical(fs);
    } else {
      PlainFront(cs);
      PlainResolvesLexically(fs, front);
      PlainStep(fs, front, last);
      assert cs == front + [last];
      assert ResolvesLexically(fs, cs);
    }
  }

  ghost predicate ResolvesLexically(fs: FileSystem, cs: seq<Component>) {
    && Collapse(cs).absolute && (HasName(cs) || Collapse(cs).names == [])
    && fs.Resolve([], cs) == fs.Resolve([], AsComponents(Collapse(cs).names))
  }

  lemma RootIsLexical(fs: FileSystem)
    requires fs.WellFormed()
    ensures ResolvesLexically(fs, [RootDir])
  {
    assert [RootDir][..0] == [] && [RootDir][1..] == [] && AsComponents([]) == [];
    assert Collapse([RootDir]) == Push(Collapse([]), RootDir);
  }

  lemma PlainFront(cs: seq<Component>)
    requires Steps(cs) && !ClimbsOut(cs) && |cs| > 1
    ensures Steps(cs[..|cs| - 1]) && !ClimbsOut(cs[..|cs| - 1])
    ensures cs[|cs| - 1].Normal? || (cs[|cs| - 1].ParentDir? && !HasName(cs[..|cs| - 1]))
  {
  }

  /** A name, or a `..` before which there was none. */
  lemma PlainStep(fs: FileSystem, front: seq<Component>, last: Component)
    requires fs.WellFormed() && ResolvesLexically(fs, front)
    requires last.Normal? || (last.ParentDir? && !HasName(front))
    ensures ResolvesLexically(fs, front + [last])
  {
    var cs := front + [last];
    assert cs[..|cs| - 1] == front && cs[|cs| - 1] == last;
    ResolveAppend(fs, [], front, [last]);
    if last.Normal? {
      OneMoreName(fs, Collapse(front).names, last);
    } else {
      assert AsComponents([]) == [] && [last][1..] == [];
    }
  }

  lemma OneMoreName(fs: FileSystem, names: seq<string>, c: Component)
    requires c.Normal?
    ensures fs.Resolve([], AsComponents(names + [c.name])) ==
            (if fs.Resolve([], AsComponents(names)).None? then None
             else fs.Resolve(fs.Resolve([], AsComponents(names)).value, [c]))
  {
    assert AsComponents(names + [c.name]) == AsComponents(names) + [c];
    ResolveAppend(fs, [], AsComponents(names), [c]);
  }

  /** A name that does not exist yet is created where following the links puts it. */
  lemma NewFolder(fs: FileSystem, names: seq<string>, name: string, at: Place)
    requires fs.WellFormed() && fs.Resolve([], AsComponents(names)) == Some(at)
    requires fs.Resolve(at, [Normal(name)]).None?
    ensures Follow(fs, [], names + [name]) == at + [name]
  {
    assert [Normal(name)][1..] == [] && [name][1..] == [];
    ResolveFollows(fs, [], names, [name]);
  }

  lemma PlainNewFolder(fs: FileSystem, front: seq<Component>, name: string)
    requires fs.WellFormed() && Steps(front) && !ClimbsOut(front)
    requires fs.Resolve([], front).Some? && fs.Resolve(fs.Resolve([], front).value, [Normal(name)]).None?
    ensures Follow(fs, [], Collapse(front + [Normal(name)]).names) == fs.Resolve([], front).value + [name]
  {
    PlainResolvesLexically(fs, front);
    NewFolder(fs, Collapse(front).names, name, fs.Resolve([], front).value);
    assert (front + [Normal(name)])[..|front|] == front;
  }

  lemma PlainFolder(fs: FileSystem, cs: seq<Component>)
    requires fs.WellFormed() && Steps(cs) && !ClimbsOut(cs)
    requires FolderAt(fs, cs).Some?
    ensures FolderAt(fs, cs) == Some(Follow(fs, [], Collapse(cs).names))
  {
    if fs.Resolve([], cs).Some? {
      PlainResolvesLexically(fs, cs);
      ResolveFollows(fs, [], Collapse(cs).names, []);
      assert Collapse(cs).names + [] == Collapse(cs).names;
    } else {
      var front, last := cs[..|cs| - 1], cs[|cs| - 1];
      assert cs == front + [last];
      ResolveAppend(fs, [], front, [last]);
      PlainNewFolder(fs, front, last.name);
    }
  }

  lemma AcceptedHasFolder(fs: FileSystem, cs: seq<Component>)
    requires fs.WellFormed() && Steps(cs)
    requires fs.Resolve([], cs).None? ==>
      |cs| > 1 && fs.Resolve([], cs[..|cs| - 1]).Some? && fs.kind(fs.Resolve([], cs[..|cs| - 1]).value) == Folder
    ensures FolderAt(fs, cs).Some?
  {
    if fs.Resolve([], cs).None? {
      var front, last := cs[..|cs| - 1], cs[|cs| - 1];
      assert cs == front + [last] && [last][1..] == [];
      ResolveAppend(fs, [], front, [last]);
    }
  }

  lemma AbsoluteComponents(path: string)
    requires IsAbsolute(path)
    ensures Steps(Components(path))
  {
    PartsAreComponents(Parts(path));
  }

  lemma RootResolves(fs: FileSystem, cs: seq<Component>)
    requires fs.WellFormed() && cs != [] && cs[0] == RootDir && fs.Resolve([], cs).None?
    ensures |cs| > 1
  {
    assert [RootDir][1..] == [] && fs.Resolve([], [RootDir]) == Some([]);
    assert |cs| == 1 ==> cs == [RootDir];
  }

  lemma AcceptedFolder(fs: FileSystem, root: string, path: string)
    requires fs.WellFormed() && Validate(fs, root, path).None? && Trim(path) == path
    ensures IsAbsolute(path) && FolderAt(fs, Components(path)).Some?
  {
    var cs := Components(path);
    AbsoluteComponents(path);
    if fs.Resolve([], cs).None? {
      RootResolves(fs, cs);
    }
    AcceptedHasFolder(fs, cs);
  }

  /** The folder that is compared is the folder that is used. */
  lemma PlainIsCheckedAsUsed(fs: FileSystem, root: string, path: string)
    requires fs.WellFormed() && Validate(fs, root, path).None? && Plain(path)
    ensures Lexical(path).absolute && FolderOf(fs, path) == Some(Canonical(fs, Lexical(path)))
  {
    AcceptedFolder(fs, root, path);
    AbsoluteComponents(path);
    PlainFolder(fs, Components(path));
    PlainResolvesLexically(fs, Components(path));
  }

  /** What leads to a file leads to a folder before its last step. */
  lemma FileHasFolder(fs: FileSystem, cs: seq<Component>)
    requires fs.WellFormed() && Steps(cs) && fs.Resolve([], cs).Some? && fs.kind(fs.Resolve([], cs).value) == File
    ensures |cs| > 1
    ensures var parent := fs.Resolve([], cs[..|cs| - 1]); parent.Some? && fs.kind(parent.value) == Folder
  {
    var front, last := cs[..|cs| - 1], cs[|cs| - 1];
    assert cs == front + [last] && [last][1..] == [];
    ResolveAppend(fs, [], front, [last]);
    assert front == [] ==> fs.Resolve([], cs) == Some([]);
  }

  /** The check that a path is not a file: it fails, and the path is accepted, exactly when
      the file's name is written with a separator or `/.` behind it. */
  lemma FileIsAcceptedExactly(fs: FileSystem, root: string, path: string)
    requires fs.WellFormed() && IsAbsolute(Trim(path)) && Components(root) <= Components(Trim(path))
    requires var found := fs.Resolve([], Components(Trim(path))); found.Some? && fs.kind(found.value) == File
    ensures Validate(fs, root, path).None? <==> EndsAsFolder(Trim(path))
  {
    AbsoluteComponents(Trim(path));
    FileHasFolder(fs, Components(Trim(path)));
  }
}
