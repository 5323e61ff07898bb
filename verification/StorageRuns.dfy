/** Recording locations over whole runs, while files and folders come and go on disk. */
module StorageRuns {
  import opened Options
  import opened StorageFolders
  import opened StoragePaths
  import opened Storages
  import opened Whitespace

  // ---- file systems with the same links ---------------------------------------

  /** Folders and files may come and go; the links stay. */
  ghost predicate SameLinks(a: FileSystem, b: FileSystem) {
    forall p :: (a.kind(p).Link? || b.kind(p).Link?) ==> a.kind(p) == b.kind(p)
  }

  lemma {:induction false} FollowsSameLinks(a: FileSystem, b: FileSystem, cur: Place, names: seq<string>)
    requires SameLinks(a, b)
    ensures Follow(a, cur, names) == Follow(b, cur, names)
    decreases |names|
  {
    if names != [] {
      var next := cur + [names[0]];
      assert a.kind(next).Link? || b.kind(next).Link? ==> a.kind(next) == b.kind(next);
      FollowsSameLinks(a, b, if a.kind(next).Link? then a.kind(next).target else next, names[1..]);
    }
  }

  /** Two sites that give every path the same form, and every absolute path the same place. */
  ghost predicate Agree(a: Site, b: Site) {
    && (forall path :: a.lexical(path) == b.lexical(path))
    && forall path :: a.lexical(path).absolute ==> a.place(path) == b.place(path)
  }

  lemma SameLinksAgree(a: FileSystem, b: FileSystem, root: string)
    requires SameLinks(a, b)
    ensures Agree(SiteOf(a, root), SiteOf(b, root))
  {
    var x, y := SiteOf(a, root), SiteOf(b, root);
    forall path | x.lexical(path).absolute
      ensures x.place(path) == y.place(path)
    {
      FollowsSameLinks(a, b, [], Lexical(path).names);
    }
  }

  lemma {:induction false} AbsoluteCollapses(cs: seq<Component>)
    requires cs != [] && cs[0] == RootDir
    ensures Collapse(cs).absolute
    decreases |cs|
  {
    if |cs| == 1 {
      assert Collapse(cs) == Push(Collapse([]), RootDir);
    } else {
      AbsoluteCollapses(cs[..|cs| - 1]);
    }
  }

  lemma AcceptedIsAbsolute(fs: FileSystem, root: string, path: string)
    requires Validate(fs, root, path).None?
    ensures Lexical(path).absolute
  {
    AbsoluteComponents(Trim(path));
    AbsoluteCollapses(Components(Trim(path)));
  }

  lemma SiteIsSound(fs: FileSystem, root: string)
    ensures Sound(SiteOf(fs, root))
  {
    var w := SiteOf(fs, root);
    forall path | w.bad(path).None?
      ensures w.lexical(path).absolute
    {
      AcceptedIsAbsolute(fs, root, path);
    }
  }

  lemma ValidWhereAgreed(a: Site, b: Site, t: Tables)
    requires Agree(a, b) && Valid(a, t)
    ensures Valid(b, t)
  {
    forall i, j | 0 <= i < j < |t.storages|
      ensures SeparateIn(b)(t.storages[i], t.storages[j])
    {
      assert SeparateIn(a)(t.storages[i], t.storages[j]);
    }
  }

  // ---- runs -------------------------------------------------------------------

  /** `worlds[i]` is the file system during action `i`. */
  ghost predicate IsRun(fs: FileSystem, root: string, worlds: seq<FileSystem>, states: seq<Tables>, actions: seq<Action>) {
    && |worlds| == |actions| && |states| == |actions| + 1
    && forall i :: 0 <= i < |actions| ==>
         SameLinks(fs, worlds[i]) && states[i + 1] == Apply(SiteOf(worlds[i], root), states[i], actions[i])
  }

  lemma StepKeepsValid(fs: FileSystem, world: FileSystem, root: string, t: Tables, a: Action)
    requires SameLinks(fs, world) && Valid(SiteOf(fs, root), t)
    ensures Valid(SiteOf(fs, root), Apply(SiteOf(world, root), t, a))
  {
    SameLinksAgree(fs, world, root);
    SiteIsSound(world, root);
    StepKeepsValidWhereAgreed(SiteOf(fs, root), SiteOf(world, root), t, a);
  }

  lemma StepKeepsValidWhereAgreed(here: Site, there: Site, t: Tables, a: Action)
    requires Agree(here, there) && Sound(there) && Valid(here, t)
    ensures Valid(here, Apply(there, t, a))
  {
    ValidWhereAgreed(here, there, t);
    ApplyKeepsValid(there, t, a);
    ValidWhereAgreed(there, here, Apply(there, t, a));
  }

  lemma {:induction false} RunKeepsValid(fs: FileSystem, root: string, worlds: seq<FileSystem>, states: seq<Tables>,
                                         actions: seq<Action>, n: nat)
    requires IsRun(fs, root, worlds, states, actions) && n <= |actions| && Valid(SiteOf(fs, root), states[0])
    ensures Valid(SiteOf(fs, root), states[n])
    decreases n
  {
    if n > 0 {
      var m := n - 1;
      RunKeepsValid(fs, root, worlds, states, actions, m);
      assert SameLinks(fs, worlds[m]) && states[m + 1] == Apply(SiteOf(worlds[m], root), states[m], actions[m]);
      StepKeepsValid(fs, worlds[m], root, states[m], actions[m]);
    }
  }

  /** A file, given by its components from the root, lies under the canonical folder of at most
      one location, whatever was done. */
  lemma FileHasOneHome(fs: FileSystem, root: string, worlds: seq<FileSystem>, states: seq<Tables>,
                       actions: seq<Action>, n: nat, i: nat, j: nat, file: seq<string>)
    requires IsRun(fs, root, worlds, states, actions) && n <= |actions| && Valid(SiteOf(fs, root), states[0])
    requires i < |states[n].storages| && j < |states[n].storages|
    requires Under(file, CanonicalOf(fs, states[n].storages[i].path))
    requires Under(file, CanonicalOf(fs, states[n].storages[j].path))
    ensures i == j
  {
    RunKeepsValid(fs, root, worlds, states, actions, n);
    PrefixesOfOne(CanonicalOf(fs, states[n].storages[i].path), CanonicalOf(fs, states[n].storages[j].path), file);
    if i != j {
      OthersSeparate(SiteOf(fs, root), states[n].storages, i, j);
    }
  }

  lemma RunStepKeepsSegmentPath(fs: FileSystem, root: string, worlds: seq<FileSystem>, states: seq<Tables>,
                                actions: seq<Action>, m: nat, key: nat)
    requires IsRun(fs, root, worlds, states, actions) && m < |actions| && Valid(SiteOf(fs, root), states[0])
    requires key in states[m].segments && key in states[m + 1].segments
    ensures SamePath(states[m], states[m + 1], key)
  {
    RunKeepsValid(fs, root, worlds, states, actions, m);
    StepKeepsSegmentPath(SiteOf(worlds[m], root), states[m], actions[m], key);
  }

  /** A recording that is not deleted resolves to the file it was written to, through every
      creation, change and deletion of locations. */
  lemma SegmentKeepsItsPath(fs: FileSystem, root: string, worlds: seq<FileSystem>, states: seq<Tables>,
                            actions: seq<Action>, first: nat, last: nat, key: nat)
    requires IsRun(fs, root, worlds, states, actions) && first <= last <= |actions|
    requires Valid(SiteOf(fs, root), states[0])
    requires forall m :: first <= m <= last ==> key in states[m].segments
    ensures SamePath(states[first], states[last], key)
  {
    RunKeepsValid(fs, root, worlds, states, actions, first);
    ListedSegmentHasPath(states[first], key);
    forall m: nat | first <= m < last
      ensures SamePath(states[m], states[m + 1], key)
    {
      RunStepKeepsSegmentPath(fs, root, worlds, states, actions, m, key);
    }
    SamePathThroughout(states, first, last, key);
  }

  /** Locations with plain paths share no folder on disk, links or not. */
  lemma PlainLocationsShareNothing(fs: FileSystem, root: string, t: Tables, i: nat, j: nat, file: Place)
    requires fs.WellFormed() && Valid(SiteOf(fs, root), t) && i < |t.storages| && j < |t.storages| && i != j
    requires Plain(t.storages[i].path) && Validate(fs, root, t.storages[i].path).None?
    requires Plain(t.storages[j].path) && Validate(fs, root, t.storages[j].path).None?
    ensures var a, b := FolderOf(fs, t.storages[i].path), FolderOf(fs, t.storages[j].path);
            a.Some? && b.Some? && !(Under(file, a.value) && Under(file, b.value))
  {
    PlainIsCheckedAsUsed(fs, root, t.storages[i].path);
    PlainIsCheckedAsUsed(fs, root, t.storages[j].path);
    OthersSeparate(SiteOf(fs, root), t.storages, i, j);
    var a, b := FolderOf(fs, t.storages[i].path).value, FolderOf(fs, t.storages[j].path).value;
    ApartFromTheRoot(a, b);
    ApartIffNothingShared(a, b);
  }
}
