/** What the checks of a location's path mean: its text piece by piece, and what must be on disk. */
module StorageChecks {
  import opened Options
  import opened StorageFolders
  import opened StoragePaths
  import opened StorageRuns
  import opened StorageTrust
  import opened Storages
  import opened Whitespace

  // ---- the text of a path -----------------------------------------------------

  function Joined(parts: seq<string>): string
    requires parts != []
  {
    if |parts| == 1 then parts[0] else Joined(parts[..|parts| - 1]) + "/" + parts[|parts| - 1]
  }

  lemma {:induction false} PartsHoldNoSeparator(s: string)
    ensures forall i :: 0 <= i < |Parts(s)| ==> '/' !in Parts(s)[i]
    decreases |s|
  {
    if s != "" {
      PartsHoldNoSeparator(s[..|s| - 1]);
    }
  }

  lemma {:induction false} PartsJoin(s: string)
    ensures Joined(Parts(s)) == s
    decreases |s|
  {
    if s != "" {
      var front, c := s[..|s| - 1], s[|s| - 1];
      assert s == front + [c];
      PartsJoin(front);
      OneCharacterMore(front, c);
    }
  }

  /** The parts hold no separator, and joined by separators they are the text. */
  lemma PartsExactly(s: string)
    ensures Joined(Parts(s)) == s && forall i :: 0 <= i < |Parts(s)| ==> '/' !in Parts(s)[i]
  {
    PartsHoldNoSeparator(s);
    PartsJoin(s);
  }

  lemma OneCharacterMore(front: string, c: char)
    ensures Joined(Parts(front + [c])) == Joined(Parts(front)) + [c]
  {
    var parts := Parts(front);
    assert (front + [c])[..|front|] == front;
    if c == '/' {
      JoinedOfMore(parts, "");
    } else {
      assert parts == parts[..|parts| - 1] + [parts[|parts| - 1]];
      LastPartGrows(parts[..|parts| - 1], parts[|parts| - 1], c);
    }
  }

  lemma JoinedOfMore(front: seq<string>, last: string)
    ensures Joined(front + [last]) == if front == [] then last else Joined(front) + "/" + last
  {
    assert (front + [last])[..|front|] == front;
  }

  lemma Regrouped(a: string, b: string, c: string, d: string)
    ensures a + b + (c + d) == a + b + c + d
  {
  }

  lemma LastPartGrows(front: seq<string>, last: string, c: char)
    ensures Joined(front + [last + [c]]) == Joined(front + [last]) + [c]
  {
    JoinedOfMore(front, last + [c]);
    JoinedOfMore(front, last);
    if front != [] {
      Regrouped(Joined(front), "/", last, [c]);
    }
  }

  lemma PartsOfJoined(t: string, part: string)
    requires '/' !in part
    ensures Parts(t + ("/" + part)) == Parts(t) + [part]
  {
    var slashed := t + "/";
    assert slashed[..|slashed| - 1] == t && t + ("/" + part) == slashed + part;
    PartsOfExtended(slashed, part);
    assert "" + part == part;
  }

  lemma Regroup<T>(h: seq<T>, a: seq<T>, b: seq<T>)
    ensures h + (a + b) == h + a + b
  {
  }

  /** What stands for the front of a path. */
  function Head(s: string): seq<Component> {
    if IsAbsolute(s) then [RootDir] else if Parts(s)[0] == "." then [CurDir] else []
  }

  lemma ComponentsOfMore(s: string, longer: string, part: string)
    requires Parts(longer) == Parts(s) + [part] && IsAbsolute(longer) == IsAbsolute(s)
    ensures Components(longer) == Components(s) + PartComponents(part)
  {
    OneOfParts(Parts(s), part);
    assert Parts(longer)[0] == Parts(s)[0];
    assert Head(longer) == Head(s);
    Regroup(Head(s), AllComponents(Parts(s)), PartComponents(part));
  }

  lemma OnePartMore(t: string, part: string)
    requires t != "" && '/' !in part
    ensures Components(t + ("/" + part)) == Components(t) + PartComponents(part)
  {
    PartsOfJoined(t, part);
    ComponentsOfMore(t, t + ("/" + part), part);
  }

  /** Every path is the root, or a relative part, with parts behind it. A further separator and a
      `.` change nothing, `..` is a step up, any other part a name. */
  lemma ComponentsExactly(t: string, name: string)
    requires t != "" && '/' !in name && name != "" && name != "." && name != ".."
    ensures Components("/") == [RootDir] && Components(".") == [CurDir] && Components("..") == [ParentDir]
    ensures Components(name) == [Normal(name)]
    ensures Components(t + ("/" + "")) == Components(t) && Components(t + ("/" + ".")) == Components(t)
    ensures Components(t + ("/" + "..")) == Components(t) + [ParentDir]
    ensures Components(t + ("/" + name)) == Components(t) + [Normal(name)]
  {
    OnePartMore(t, "");
    OnePartMore(t, ".");
    OnePartMore(t, "..");
    OnePartMore(t, name);
    RootAlone();
    OnePartAlone(".");
    OnePartAlone("..");
    OnePartAlone(name);
  }

  lemma RootAlone()
    ensures Components("/") == [RootDir]
  {
    assert "/"[..0] == "";
    assert Parts("/") == ["", ""];
    OneOfParts([""], "");
    OneOfParts([], "");
  }

  lemma OneOfParts(front: seq<string>, part: string)
    ensures AllComponents(front + [part]) == AllComponents(front) + PartComponents(part)
  {
    assert (front + [part])[..|front|] == front;
  }

  lemma OnePartAlone(part: string)
    requires part != "" && '/' !in part
    ensures Components(part) == if part == "." then [CurDir] else PartComponents(part)
  {
    PartsOfExtended("", part);
    assert "" + part == part && Parts("") == [""];
    assert Parts(part) == [] + [part];
    OneOfParts([], part);
  }

  /** A recording's relative path leads below the folder it is joined to, an absolute one replaces
      it. */
  lemma JoinExactly(folder: string, path: string)
    ensures IsAbsolute(path) ==> Join(folder, path) == path
    ensures folder != "" && path != "" && '/' !in path ==>
      Components(Join(folder, path)) == Components(folder) + PartComponents(path)
  {
    if folder != "" && path != "" && '/' !in path {
      if folder[|folder| - 1] == '/' {
        SlashedFolder(folder, path);
      } else {
        OnePartMore(folder, path);
        assert folder + "/" + path == folder + ("/" + path);
      }
    }
  }

  lemma SlashedFolder(folder: string, path: string)
    requires folder != "" && folder[|folder| - 1] == '/' && path != "" && '/' !in path
    ensures Components(folder + path) == Components(folder) + PartComponents(path)
  {
    var front := Parts(folder[..|folder| - 1]);
    PartsOfExtended(folder, path);
    assert "" + path == path;
    assert Parts(folder) == front + [""] && Parts(folder + path) == front + [path];
    SameButLast(folder, folder + path, front, "", path);
  }

  lemma SameButLast(s: string, t: string, front: seq<string>, last: string, other: string)
    requires Parts(s) == front + [last] && Parts(t) == front + [other] && front != []
    requires IsAbsolute(s) == IsAbsolute(t) && PartComponents(last) == []
    ensures Components(t) == Components(s) + PartComponents(other)
  {
    OneOfParts(front, last);
    OneOfParts(front, other);
    assert Head(t) == Head(s) && AllComponents(front) + [] == AllComponents(front);
    Regroup(Head(s), AllComponents(front), PartComponents(other));
  }

  // ---- what must be on disk ---------------------------------------------------

  /** What resolves exists. */
  lemma {:induction false} ResolvedExists(fs: FileSystem, cur: Place, cs: seq<Component>)
    requires fs.WellFormed() && (fs.kind(cur) == Folder || fs.kind(cur) == File)
    ensures var at := fs.Resolve(cur, cs); at.Some? ==> fs.kind(at.value) == Folder || fs.kind(at.value) == File
    decreases |cs|
  {
    if cs != [] && fs.kind(cur) == Folder {
      match cs[0]
      case RootDir => ResolvedExists(fs, [], cs[1..]);
      case CurDir => ResolvedExists(fs, cur, cs[1..]);
      case ParentDir =>
        assert cur != [] ==> cur == Parent(cur) + [cur[|cur| - 1]];
        ResolvedExists(fs, Parent(cur), cs[1..]);
      case Normal(name) =>
        match fs.kind(cur + [name])
        case Absent =>
        case Link(target) => ResolvedExists(fs, target, cs[1..]);
        case _ => ResolvedExists(fs, cur + [name], cs[1..]);
    }
  }

  lemma {:induction false} Longest(fs: FileSystem, names: seq<string>) returns (n: nat)
    ensures n <= |names| && ResolvesUpTo(fs, [], names, n)
    decreases |names|
  {
    assert names[..|names|] == names;
    if fs.Resolve([], AsComponents(names)).Some? {
      n := |names|;
    } else {
      assert names == [] ==> AsComponents(names) == [];
      n := Longest(fs, names[..|names| - 1]);
      assert names[..|names| - 1][..n] == names[..n];
      assert n < |names| - 1 ==> names[..|names| - 1][..n + 1] == names[..n + 1];
    }
  }

  lemma {:induction false} AbsentBelow(fs: FileSystem, at: Place, rest: seq<string>)
    requires fs.WellFormed() && rest != [] && fs.kind(at + [rest[0]]) == Absent
    ensures fs.kind(at + rest) == Absent
    decreases |rest|
  {
    if |rest| == 1 {
      assert rest == [rest[0]];
    } else {
      var front, last := rest[..|rest| - 1], rest[|rest| - 1];
      AbsentBelow(fs, at, front);
      assert at + rest == (at + front) + [last];
    }
  }

  /** Past the last name that resolves there is nothing. */
  lemma NothingPast(fs: FileSystem, names: seq<string>, n: nat)
    requires fs.WellFormed() && n < |names| && ResolvesUpTo(fs, [], names, n)
    ensures var at := fs.Resolve([], AsComponents(names[..n])).value;
      fs.kind(at + [names[n]]) == Absent
  {
    var at := fs.Resolve([], AsComponents(names[..n])).value;
    assert AsComponents(names[..n + 1]) == AsComponents(names[..n]) + [Normal(names[n])];
    ResolveAppend(fs, [], AsComponents(names[..n]), [Normal(names[n])]);
    assert [Normal(names[n])][1..] == [];
  }

  /** A path that resolves leads to a folder or a file. */
  lemma ResolvedNames(fs: FileSystem, names: seq<string>)
    requires fs.WellFormed() && fs.Resolve([], AsComponents(names)).Some?
    ensures var p := Follow(fs, [], names);
      fs.Resolve([], AsComponents(names)) == Some(p) && (fs.kind(p) == Folder || fs.kind(p) == File)
  {
    ResolveFollows(fs, [], names, []);
    assert names + [] == names;
    ResolvedExists(fs, [], AsComponents(names));
  }

  /** Another one leads to nothing. */
  lemma MissingNames(fs: FileSystem, names: seq<string>)
    requires fs.WellFormed() && fs.Resolve([], AsComponents(names)).None?
    ensures names != [] && Follow(fs, [], names) != [] && fs.kind(Follow(fs, [], names)) == Absent
  {
    assert names == [] ==> AsComponents(names) == [];
    var n := Longest(fs, names);
    assert names[..|names|] == names;
    FollowPastTheEnd(fs, [], names, n);
    NothingPast(fs, names, n);
    AbsentBelow(fs, fs.Resolve([], AsComponents(names[..n])).value, names[n..]);
  }

  /** Its parent is a folder exactly if the names before the last lead to one. */
  lemma ParentOfMissing(fs: FileSystem, front: seq<string>, last: string)
    requires fs.WellFormed() && fs.Resolve([], AsComponents(front + [last])).None?
    ensures var up := fs.Resolve([], AsComponents(front));
      fs.kind(Parent(Follow(fs, [], front + [last]))) == Folder <==> up.Some? && fs.kind(up.value) == Folder
  {
    var up := fs.Resolve([], AsComponents(front));
    if up.Some? {
      ResolvedNames(fs, front);
      ResolveFollows(fs, [], front, [last]);
      assert AsComponents(front + [last]) == AsComponents(front) + [Normal(last)];
      ResolveAppend(fs, [], AsComponents(front), [Normal(last)]);
      LastIsNoLink(fs, up.value, last);
    } else {
      MissingNames(fs, front);
      var n := Longest(fs, front);
      FollowPastTheEnd(fs, [], front, n);
      assert front[..|front|] == front;
      assert (front + [last])[..n] == front[..n] && (front + [last])[..n + 1] == front[..n + 1];
      FollowPastTheEnd(fs, [], front + [last], n);
      var at := fs.Resolve([], AsComponents(front[..n])).value;
      assert (front + [last])[n..] == front[n..] + [last];
      assert at + (front[n..] + [last]) == (at + front[n..]) + [last];
    }
  }

  lemma LastIsNoLink(fs: FileSystem, at: Place, last: string)
    requires fs.WellFormed() && fs.Resolve(at, [Normal(last)]).None?
    ensures Parent(Follow(fs, at, [last])) == at
  {
    assert [Normal(last)][1..] == [] && [last][1..] == [];
    assert fs.kind(at + [last]).Link? ==> fs.kind(at) == Folder;
  }

  /** The text is refused before anything is looked up exactly if it is blank, relative, or not
      below the media root; the white space around it does not count. */
  lemma TextIsRefusedExactly(fs: FileSystem, root: string, path: string)
    ensures Validate(fs, root, path) == Some(Empty) <==> IsBlank(path)
    ensures Validate(fs, root, path) == Some(Relative) <==> !IsBlank(path) && !IsAbsolute(Trim(path))
    ensures Validate(fs, root, path) == Some(Outside) <==>
      IsAbsolute(Trim(path)) && !(Components(root) <= Components(Trim(path)))
  {
    BlankIsTrimmedAway(path);
  }

  lemma BlankIsTrimmedAway(s: string)
    ensures Trim(s) == "" <==> IsBlank(s)
  {
    var t := Trim(s);
    TrimIsTrimmed(s);
    var u, v :| s == u + t + v && IsBlank(u) && IsBlank(v);
    if t != "" {
      assert s[|u|] == t[0];
    }
  }

  /** What becomes of a path that ends in a name. */
  lemma LastName(cs: seq<Component>)
    requires Steps(cs) && !ClimbsOut(cs) && |cs| > 1 && cs[|cs| - 1].Normal?
    ensures var front := cs[..|cs| - 1];
      Steps(front) && !ClimbsOut(front) && Collapse(cs).names == Collapse(front).names + [cs[|cs| - 1].name]
  {
  }

  /** `..` from the root, with no name before it, stays there. */
  lemma {:induction false} NoNamesNowhere(cs: seq<Component>)
    requires !HasName(cs)
    ensures Collapse(cs).names == []
    decreases |cs|
  {
    if cs != [] {
      NoNamesNowhere(cs[..|cs| - 1]);
    }
  }

  lemma NoNamesResolve(fs: FileSystem, cs: seq<Component>)
    requires fs.WellFormed() && Steps(cs) && !ClimbsOut(cs) && !HasName(cs)
    ensures fs.Resolve([], cs) == Some([])
  {
    PlainResolvesLexically(fs, cs);
    NoNamesNowhere(cs);
    assert AsComponents([]) == [];
  }

  lemma OnlyNamesAreMissing(fs: FileSystem, cs: seq<Component>)
    requires fs.WellFormed() && Steps(cs) && !ClimbsOut(cs) && fs.Resolve([], cs).None?
    ensures |cs| > 1 && cs[|cs| - 1].Normal?
  {
    RootResolves(fs, cs);
    PlainFront(cs);
    if !HasName(cs) {
      NoNamesResolve(fs, cs);
    }
  }

  lemma MissingIsAcceptedExactly(fs: FileSystem, root: string, text: string)
    requires fs.WellFormed() && IsAbsolute(text) && !ClimbsOut(Components(text)) && fs.Resolve([], Components(text)).None?
    ensures var p := Follow(fs, [], Collapse(Components(text)).names);
      fs.kind(p) == Absent && (DiskRefusal(fs, root, text).None? <==> fs.kind(Parent(p)) == Folder)
      && DiskRefusal(fs, root, text) != Some(NotAFolder)
  {
    var cs := Components(text);
    AbsoluteComponents(text);
    PlainResolvesLexically(fs, cs);
    MissingNames(fs, Collapse(cs).names);
    OnlyNamesAreMissing(fs, cs);
    LastName(cs);
    PlainResolvesLexically(fs, cs[..|cs| - 1]);
    ParentOfMissing(fs, Collapse(cs[..|cs| - 1]).names, cs[|cs| - 1].name);
  }

  lemma FoundIsAcceptedExactly(fs: FileSystem, root: string, text: string)
    requires fs.WellFormed() && IsAbsolute(text) && !ClimbsOut(Components(text)) && fs.Resolve([], Components(text)).Some?
    ensures var p := Follow(fs, [], Collapse(Components(text)).names);
      && (fs.kind(p) == Folder || fs.kind(p) == File)
      && (DiskRefusal(fs, root, text).None? <==> fs.kind(p) == Folder || EndsAsFolder(text))
      && (DiskRefusal(fs, root, text) == Some(NotAFolder) <==> fs.kind(p) == File && !EndsAsFolder(text))
  {
    var cs := Components(text);
    AbsoluteComponents(text);
    PlainResolvesLexically(fs, cs);
    ResolvedNames(fs, Collapse(cs).names);
    if fs.kind(fs.Resolve([], cs).value) == File {
      FileHasFolder(fs, cs);
    }
  }

  /** A plain path below the media root is accepted exactly if it leads to a folder, or to nothing
      yet in a folder that exists, or to a file written as a folder; and it is refused for being
      a file exactly if it leads to one and is not written so. */
  lemma PlainIsAcceptedExactly(fs: FileSystem, root: string, path: string)
    requires fs.WellFormed() && IsAbsolute(path) && Plain(path) && Components(root) <= Components(path)
    ensures Lexical(path).absolute
    ensures var p := Canonical(fs, Lexical(path));
      && (Validate(fs, root, path).None? <==>
            || fs.kind(p) == Folder
            || (fs.kind(p) == File && EndsAsFolder(path))
            || (fs.kind(p) == Absent && fs.kind(Parent(p)) == Folder))
      && (Validate(fs, root, path) == Some(NotAFolder) <==> fs.kind(p) == File && !EndsAsFolder(path))
  {
    AbsoluteComponents(path);
    AbsoluteCollapses(Components(path));
    if fs.Resolve([], Components(path)).None? {
      MissingIsAcceptedExactly(fs, root, path);
    } else {
      FoundIsAcceptedExactly(fs, root, path);
    }
  }
}
