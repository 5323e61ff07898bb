/** Recording locations: who may be created, repointed and deleted, and what that keeps. */
module Storages {
  import opened Options
  import opened StoragePaths
  import opened StorageFolders

  datatype Storage = Storage(id: nat, name: string, path: string)

  /** A recording; `path` is relative to the folder of its storage. */
  datatype Segment = Segment(storage: nat, path: string)

  /** Where a recording policy writes. */
  datatype Destinations = Destinations(live: Option<nat>, archive: Option<nat>)

  datatype Tables = Tables(storages: seq<Storage>, segments: map<nat, Segment>, policies: map<nat, Destinations>)

  datatype Relation = Same | Inside | Contains

  datatype Refusal =
    | NotFound
    | BadPath(error: PathError)
    | Overlaps(other: nat, relation: Relation)
    | HoldsRecordings
    | InUse
    | NameTaken

  // ---- overlap ----------------------------------------------------------------

  predicate Apart(a: seq<string>, b: seq<string>) {
    !(a <= b) && !(b <= a)
  }

  predicate Under(file: seq<string>, folder: seq<string>) {
    folder <= file
  }

  lemma PrefixesOfOne(a: seq<string>, b: seq<string>, f: seq<string>)
    requires Under(f, a) && Under(f, b)
    ensures !Apart(a, b)
  {
    var n := if |a| <= |b| then |a| else |b|;
    assert a[..n] == f[..n] == b[..n];
    assert a[..n] == a || b[..n] == b;
  }

  /** Two folders are apart exactly when no file lies under both. */
  lemma ApartIffNothingShared(a: seq<string>, b: seq<string>)
    ensures Apart(a, b) <==> forall f: seq<string> :: !(Under(f, a) && Under(f, b))
  {
    forall f: seq<string> | Under(f, a) && Under(f, b)
      ensures !Apart(a, b)
    {
      PrefixesOfOne(a, b, f);
    }
    assert Under(a, a) && Under(b, b);
    assert a <= b <==> Under(b, a);
    assert b <= a <==> Under(a, b);
  }

  function RelationTo(a: seq<string>, b: seq<string>): Option<Relation> {
    if a == b then Some(Same)
    else if b <= a then Some(Inside)
    else if a <= b then Some(Contains)
    else None
  }

  /** What a file system and the media root say about a path: why it is refused, its lexical
      form, and the components of its canonical form. */
  datatype Site = Site(bad: string -> Option<PathError>, lexical: string -> PathBuf, place: string -> seq<string>)

  /** A path as its list of components, an absolute one with the root in front. */
  function Rooted(path: PathBuf): seq<string> {
    if path.absolute then ["/"] + path.names else path.names
  }

  lemma PrefixFromTheRoot(a: Place, b: Place)
    ensures ["/"] + a <= ["/"] + b <==> a <= b
  {
    if |a| <= |b| {
      assert forall i :: 0 <= i < |a| ==> (["/"] + a)[i + 1] == a[i] && (["/"] + b)[i + 1] == b[i];
    }
  }

  lemma ApartFromTheRoot(a: Place, b: Place)
    ensures Apart(["/"] + a, ["/"] + b) <==> Apart(a, b)
  {
    PrefixFromTheRoot(a, b);
    PrefixFromTheRoot(b, a);
  }

  function CanonicalOf(fs: FileSystem, path: string): seq<string> {
    Rooted(CanonicalPath(fs, Lexical(path)))
  }

  function SiteOf(fs: FileSystem, root: string): Site {
    Site(path => Validate(fs, root, path), path => Lexical(path), path => CanonicalOf(fs, path))
  }

  /** A path that is accepted is absolute. */
  ghost predicate Sound(w: Site) {
    forall path :: w.bad(path).None? ==> w.lexical(path).absolute
  }

  predicate Usable(w: Site, storages: seq<Storage>) {
    forall i :: 0 <= i < |storages| ==> w.lexical(storages[i].path).absolute
  }

  function OverlapWith(w: Site, candidate: string, other: Storage, exclude: Option<nat>): Option<Refusal> {
    var relation := RelationTo(w.place(candidate), w.place(other.path));
    if exclude != Some(other.id) && relation.Some? then Some(Overlaps(other.id, relation.value)) else None
  }

  function FirstOf<T, R>(s: seq<T>, f: T -> Option<R>): Option<R> {
    if s == [] then None
    else if f(s[0]).Some? then f(s[0])
    else FirstOf(s[1..], f)
  }

  lemma {:induction false} FirstOfNone<T, R>(s: seq<T>, f: T -> Option<R>)
    ensures FirstOf(s, f).None? <==> forall i :: 0 <= i < |s| ==> f(s[i]).None?
    decreases |s|
  {
    if s != [] {
      FirstOfNone(s[1..], f);
      assert s == [s[0]] + s[1..];
    }
  }

  /** The first location in the list that the candidate overlaps. */
  function FirstOverlap(w: Site, candidate: string, existing: seq<Storage>, exclude: Option<nat>): Option<Refusal> {
    FirstOf(existing, other => OverlapWith(w, candidate, other, exclude))
  }

  predicate Clear(w: Site, candidate: string, other: Storage, exclude: Option<nat>) {
    exclude == Some(other.id) || Apart(w.place(candidate), w.place(other.path))
  }

  lemma ClearIffNoOverlap(w: Site, candidate: string, other: Storage, exclude: Option<nat>)
    ensures OverlapWith(w, candidate, other, exclude).None? <==> Clear(w, candidate, other, exclude)
  {
  }

  lemma OverlapsExactly(w: Site, candidate: string, existing: seq<Storage>, exclude: Option<nat>)
    ensures FirstOverlap(w, candidate, existing, exclude).None? <==>
            forall i :: 0 <= i < |existing| ==> Clear(w, candidate, existing[i], exclude)
  {
    FirstOfNone(existing, other => OverlapWith(w, candidate, other, exclude));
    forall i | 0 <= i < |existing|
      ensures OverlapWith(w, candidate, existing[i], exclude).None? <==> Clear(w, candidate, existing[i], exclude)
    {
      ClearIffNoOverlap(w, candidate, existing[i], exclude);
    }
  }

  /** One turn of the loop. */
  method RelationWith(cand: seq<string>, other: Storage, otherPath: seq<string>, exclude: Option<nat>) returns (r: Option<Refusal>)
    ensures r == if exclude != Some(other.id) && RelationTo(cand, otherPath).Some?
                 then Some(Overlaps(other.id, RelationTo(cand, otherPath).value)) else None
  {
    if Some(other.id) == exclude {
      return None;
    }
    if cand == otherPath {
      return Some(Overlaps(other.id, Same));
    } else if otherPath <= cand {
      return Some(Overlaps(other.id, Inside));
    } else if cand <= otherPath {
      return Some(Overlaps(other.id, Contains));
    }
    return None;
  }

  method CheckStoragePathOverlap(fs: FileSystem, root: string, candidate: string, existing: seq<Storage>,
                                 exclude: Option<nat>)
    returns (refusal: Option<Refusal>)
    requires fs.WellFormed()
    ensures refusal == FirstOverlap(SiteOf(fs, root), candidate, existing, exclude)
  {
    var cand := CanonicalStoragePath(fs, candidate);
    ghost var w := SiteOf(fs, root);
    ghost var f := (other: Storage) => OverlapWith(w, candidate, other, exclude);
    for i := 0 to |existing|
      invariant FirstOf(existing, f) == FirstOf(existing[i..], f)
    {
      var other := existing[i];
      assert existing[i..][1..] == existing[i + 1..];
      var otherPath := CanonicalStoragePath(fs, other.path);
      refusal := RelationWith(Rooted(cand), other, Rooted(otherPath), exclude);
      assert refusal == f(other);
      if refusal.Some? {
        return;
      }
    }
    return None;
  }

  // ---- the tables -------------------------------------------------------------

  predicate Holds(t: Tables, id: nat) {
    exists k :: k in t.segments && t.segments[k].storage == id
  }

  predicate Writes(d: Destinations, id: nat) {
    d.live == Some(id) || d.archive == Some(id)
  }

  predicate Referenced(t: Tables, id: nat) {
    exists p :: p in t.policies && Writes(t.policies[p], id)
  }

  predicate Listed(t: Tables, id: nat) {
    exists i :: 0 <= i < |t.storages| && t.storages[i].id == id
  }

  predicate NameInUse(t: Tables, name: string, exclude: Option<nat>) {
    exists i :: 0 <= i < |t.storages| && t.storages[i].name == name && exclude != Some(t.storages[i].id)
  }

  function IndexOf(storages: seq<Storage>, id: nat): (i: nat)
    ensures i <= |storages|
    ensures i < |storages| ==> storages[i].id == id
    ensures forall j :: 0 <= j < i ==> storages[j].id != id
  {
    if storages == [] || storages[0].id == id then 0 else 1 + IndexOf(storages[1..], id)
  }

  predicate Separate(w: Site, a: Storage, b: Storage) {
    && a.id != b.id && a.name != b.name
    && Apart(w.place(a.path), w.place(b.path))
  }

  ghost predicate Pairwise<T>(s: seq<T>, r: (T, T) -> bool) {
    forall i, j :: 0 <= i < j < |s| ==> r(s[i], s[j])
  }

  function SeparateIn(w: Site): (Storage, Storage) -> bool {
    (a, b) => Separate(w, a, b)
  }

  ghost predicate AllSeparate(w: Site, storages: seq<Storage>) {
    Pairwise(storages, SeparateIn(w))
  }

  /** Every recording and every policy names a location that is listed. */
  ghost predicate References(t: Tables) {
    && (forall k :: k in t.segments ==> Listed(t, t.segments[k].storage))
    && forall p, id :: p in t.policies && Writes(t.policies[p], id) ==> Listed(t, id)
  }

  /** What the handlers and the foreign keys keep. */
  ghost predicate Valid(w: Site, t: Tables) {
    Usable(w, t.storages) && AllSeparate(w, t.storages) && References(t)
  }

  /** Why a new or changed path is refused. */
  function PathRefusal(w: Site, path: string, t: Tables, exclude: Option<nat>): Option<Refusal> {
    var bad := w.bad(path);
    if bad.Some? then Some(BadPath(bad.value)) else FirstOverlap(w, path, t.storages, exclude)
  }

  function Create(w: Site, t: Tables, id: nat, name: string, path: string): (Tables, Option<Refusal>) {
    var refusal := PathRefusal(w, path, t, None);
    if refusal.Some? then (t, refusal)
    else if NameInUse(t, name, None) then (t, Some(NameTaken))
    else (t.(storages := t.storages + [Storage(id, name, path)]), None)
  }

  /** A path that differs only lexically is no change. */
  predicate Repoints(w: Site, current: Storage, path: Option<string>) {
    path.Some? && w.lexical(path.value) != w.lexical(current.path)
  }

  function Update(w: Site, t: Tables, id: nat, name: Option<string>, path: Option<string>):
    (Tables, Option<Refusal>)
  {
    var i := IndexOf(t.storages, id);
    if i == |t.storages| then (t, Some(NotFound))
    else
      var current := t.storages[i];
      var moved := Repoints(w, current, path);
      if moved && Holds(t, id) then (t, Some(HoldsRecordings))
      else if moved && PathRefusal(w, path.value, t, Some(id)).Some? then
        (t, PathRefusal(w, path.value, t, Some(id)))
      else if name.Some? && NameInUse(t, name.value, Some(id)) then (t, Some(NameTaken))
      else
        var newName := if name.Some? then name.value else current.name;
        var changed := Storage(id, newName, if moved then path.value else current.path);
        (t.(storages := t.storages[i := changed]), None)
  }

  function Delete(t: Tables, id: nat): (Tables, Option<Refusal>) {
    var i := IndexOf(t.storages, id);
    if i == |t.storages| then (t, Some(NotFound))
    else if Holds(t, id) then (t, Some(HoldsRecordings))
    else if Referenced(t, id) then (t, Some(InUse))
    else (t.(storages := t.storages[..i] + t.storages[i + 1..]), None)
  }

  // ---- what every handler keeps -----------------------------------------------

  lemma AcceptedIsSeparate(w: Site, path: string, t: Tables, exclude: Option<nat>, s: Storage, i: nat)
    requires PathRefusal(w, path, t, exclude).None? && s.path == path
    requires i < |t.storages| && exclude != Some(t.storages[i].id)
    requires s.id != t.storages[i].id && s.name != t.storages[i].name
    ensures Separate(w, t.storages[i], s) && Separate(w, s, t.storages[i])
  {
    OverlapsExactly(w, path, t.storages, exclude);
    assert Clear(w, path, t.storages[i], exclude);
  }

  /** Locations that stay listed keep the references whole. */
  lemma ListedStays(t: Tables, t': Tables)
    requires References(t) && t'.segments == t.segments && t'.policies == t.policies
    requires forall i :: 0 <= i < |t.storages| ==> Listed(t', t.storages[i].id)
    ensures References(t')
  {
    forall id | Listed(t, id)
      ensures Listed(t', id)
    {
      var i :| 0 <= i < |t.storages| && t.storages[i].id == id;
    }
  }

  lemma AppendKeepsPairwise<T>(s: seq<T>, x: T, r: (T, T) -> bool)
    requires Pairwise(s, r) && forall i :: 0 <= i < |s| ==> r(s[i], x)
    ensures Pairwise(s + [x], r)
  {
  }

  lemma ReplaceKeepsPairwise<T>(s: seq<T>, k: nat, x: T, r: (T, T) -> bool)
    requires Pairwise(s, r) && k < |s|
    requires forall i :: 0 <= i < |s| && i != k ==> r(s[i], x) && r(x, s[i])
    ensures Pairwise(s[k := x], r)
  {
  }

  lemma RemoveKeepsPairwise<T>(s: seq<T>, k: nat, r: (T, T) -> bool)
    requires Pairwise(s, r) && k < |s|
    ensures Pairwise(s[..k] + s[k + 1..], r)
  {
    var rest := s[..k] + s[k + 1..];
    forall i, j | 0 <= i < j < |rest|
      ensures r(rest[i], rest[j])
    {
      assert rest[i] == s[if i < k then i else i + 1] && rest[j] == s[if j < k then j else j + 1];
    }
  }

  /** The new row is separate from every other. */
  lemma CreatedIsSeparate(w: Site, t: Tables, s: Storage, i: nat)
    requires PathRefusal(w, s.path, t, None).None? && !Listed(t, s.id) && !NameInUse(t, s.name, None)
    requires i < |t.storages|
    ensures Separate(w, t.storages[i], s)
  {
    AcceptedIsSeparate(w, s.path, t, None, s, i);
  }

  lemma AppendedRow(w: Site, t: Tables, s: Storage)
    requires Valid(w, t) && w.lexical(s.path).absolute
    requires forall i :: 0 <= i < |t.storages| ==> SeparateIn(w)(t.storages[i], s)
    ensures Valid(w, t.(storages := t.storages + [s]))
  {
    var t' := t.(storages := t.storages + [s]);
    AppendKeepsPairwise(t.storages, s, SeparateIn(w));
    assert forall i :: 0 <= i < |t.storages| ==> t'.storages[i] == t.storages[i];
    ListedStays(t, t');
  }

  lemma CreateKeepsValid(w: Site, t: Tables, id: nat, name: string, path: string)
    requires Sound(w) && Valid(w, t) && !Listed(t, id)
    ensures Valid(w, Create(w, t, id, name, path).0)
  {
    if Create(w, t, id, name, path).1.None? {
      var s := Storage(id, name, path);
      assert w.bad(path).None?;
      forall i | 0 <= i < |t.storages|
        ensures SeparateIn(w)(t.storages[i], s)
      {
        CreatedIsSeparate(w, t, s, i);
      }
      AppendedRow(w, t, s);
    }
  }

  lemma OthersSeparate(w: Site, storages: seq<Storage>, i: nat, j: nat)
    requires AllSeparate(w, storages) && i < |storages| && j < |storages| && i != j
    ensures Separate(w, storages[i], storages[j]) && Separate(w, storages[j], storages[i])
  {
    assert SeparateIn(w)(storages[if i < j then i else j], storages[if i < j then j else i]);
  }

  /** Row `k` becomes `s`: the same id, and a path and a name that are old or were accepted. */
  ghost predicate IsChange(w: Site, t: Tables, k: nat, s: Storage) {
    && k < |t.storages| && s.id == t.storages[k].id
    && (s.path == t.storages[k].path || PathRefusal(w, s.path, t, Some(s.id)).None?)
    && (s.name == t.storages[k].name || !NameInUse(t, s.name, Some(s.id)))
  }

  lemma UpdateIsChange(w: Site, t: Tables, id: nat, name: Option<string>, path: Option<string>)
    returns (k: nat, s: Storage)
    requires Update(w, t, id, name, path).1.None?
    ensures IsChange(w, t, k, s)
    ensures Update(w, t, id, name, path).0 == t.(storages := t.storages[k := s])
  {
    k := IndexOf(t.storages, id);
    s := Update(w, t, id, name, path).0.storages[k];
  }

  lemma ChangedIsSeparate(w: Site, t: Tables, k: nat, s: Storage, i: nat)
    requires AllSeparate(w, t.storages) && IsChange(w, t, k, s)
    requires i < |t.storages| && i != k
    ensures Separate(w, t.storages[i], s) && Separate(w, s, t.storages[i])
  {
    OthersSeparate(w, t.storages, i, k);
    if s.path != t.storages[k].path {
      AcceptedIsSeparate(w, s.path, t, Some(s.id), s, i);
    }
  }

  lemma ChangedRow(w: Site, t: Tables, k: nat, s: Storage)
    requires Valid(w, t) && k < |t.storages| && s.id == t.storages[k].id && w.lexical(s.path).absolute
    requires forall i :: 0 <= i < |t.storages| && i != k ==>
      SeparateIn(w)(t.storages[i], s) && SeparateIn(w)(s, t.storages[i])
    ensures Valid(w, t.(storages := t.storages[k := s]))
  {
    var t' := t.(storages := t.storages[k := s]);
    ReplaceKeepsPairwise(t.storages, k, s, SeparateIn(w));
    assert forall i :: 0 <= i < |t.storages| ==> t'.storages[i].id == t.storages[i].id;
    ListedStays(t, t');
  }

  lemma ChangeKeepsValid(w: Site, t: Tables, k: nat, s: Storage)
    requires Sound(w) && Valid(w, t) && IsChange(w, t, k, s)
    ensures Valid(w, t.(storages := t.storages[k := s]))
  {
    assert s.path != t.storages[k].path ==> w.bad(s.path).None?;
    forall i | 0 <= i < |t.storages| && i != k
      ensures SeparateIn(w)(t.storages[i], s) && SeparateIn(w)(s, t.storages[i])
    {
      ChangedIsSeparate(w, t, k, s, i);
    }
    ChangedRow(w, t, k, s);
  }

  lemma UpdateKeepsValid(w: Site, t: Tables, id: nat, name: Option<string>, path: Option<string>)
    requires Sound(w) && Valid(w, t)
    ensures Valid(w, Update(w, t, id, name, path).0)
  {
    if Update(w, t, id, name, path).1.None? {
      var k, s := UpdateIsChange(w, t, id, name, path);
      ChangeKeepsValid(w, t, k, s);
    }
  }

  lemma RestIsListed(t: Tables, t': Tables, k: nat, other: nat)
    requires k < |t.storages| && t'.storages == t.storages[..k] + t.storages[k + 1..]
    requires Listed(t, other) && other != t.storages[k].id
    ensures Listed(t', other)
  {
    var i :| 0 <= i < |t.storages| && t.storages[i].id == other;
    assert t'.storages[if i < k then i else i - 1] == t.storages[i];
  }

  lemma RestIsUsable(w: Site, storages: seq<Storage>, k: nat)
    requires Usable(w, storages) && k < |storages|
    ensures Usable(w, storages[..k] + storages[k + 1..])
  {
  }

  /** What nothing refers to can go. */
  lemma UnusedCanGo(t: Tables, t': Tables, id: nat)
    requires References(t) && t'.segments == t.segments && t'.policies == t.policies
    requires !Holds(t, id) && !Referenced(t, id)
    requires forall other :: Listed(t, other) && other != id ==> Listed(t', other)
    ensures References(t')
  {
  }

  lemma DeleteKeepsValid(w: Site, t: Tables, id: nat)
    requires Valid(w, t)
    ensures Valid(w, Delete(t, id).0)
  {
    var t' := Delete(t, id).0;
    if t' != t {
      var k := IndexOf(t.storages, id);
      RemoveKeepsPairwise(t.storages, k, SeparateIn(w));
      RestIsUsable(w, t.storages, k);
      forall other | Listed(t, other) && other != id
        ensures Listed(t', other)
      {
        RestIsListed(t, t', k, other);
      }
      UnusedCanGo(t, t', id);
    }
  }

  // ---- steps ------------------------------------------------------------------

  datatype Action =
    | CreateStorage(id: nat, name: string, path: string)
    | UpdateStorage(id: nat, newName: Option<string>, newPath: Option<string>)
    | DeleteStorage(id: nat)
    | Record(key: nat, segment: Segment)
    | Forget(key: nat)
    | Assign(policy: nat, destinations: Destinations)

  /** One step of the database. The primary and foreign keys refuse a taken id, a recording
      or a policy that names a location not listed. */
  function Apply(w: Site, t: Tables, a: Action): Tables {
    match a
    case CreateStorage(id, name, path) => if Listed(t, id) then t else Create(w, t, id, name, path).0
    case UpdateStorage(id, name, path) => Update(w, t, id, name, path).0
    case DeleteStorage(id) => Delete(t, id).0
    case Record(key, segment) =>
      if key in t.segments || !Listed(t, segment.storage) then t else t.(segments := t.segments[key := segment])
    case Forget(key) => t.(segments := t.segments - {key})
    case Assign(policy, d) =>
      if (d.live.Some? && !Listed(t, d.live.value)) || (d.archive.Some? && !Listed(t, d.archive.value)) then t
      else t.(policies := t.policies[policy := d])
  }

  lemma ApplyKeepsValid(w: Site, t: Tables, a: Action)
    requires Sound(w) && Valid(w, t)
    ensures Valid(w, Apply(w, t, a))
  {
    match a
    case CreateStorage(id, name, path) =>
      if !Listed(t, id) {
        CreateKeepsValid(w, t, id, name, path);
      }
    case UpdateStorage(id, name, path) => UpdateKeepsValid(w, t, id, name, path);
    case DeleteStorage(id) => DeleteKeepsValid(w, t, id);
    case Record(_, _) => OtherStepsKeepReferences(w, t, a);
    case Forget(_) => OtherStepsKeepReferences(w, t, a);
    case Assign(_, _) => OtherStepsKeepReferences(w, t, a);
  }

  lemma OtherStepsKeepReferences(w: Site, t: Tables, a: Action)
    requires References(t) && (a.Record? || a.Forget? || a.Assign?)
    ensures References(Apply(w, t, a)) && Apply(w, t, a).storages == t.storages
  {
    var t' := Apply(w, t, a);
    assert forall id :: Listed(t', id) <==> Listed(t, id);
  }

  // ---- recordings stay where they are -----------------------------------------

  /** `Path::join`: an absolute second path replaces the first. */
  function Join(folder: string, path: string): string {
    if IsAbsolute(path) then path
    else if folder != "" && folder[|folder| - 1] == '/' then folder + path
    else folder + "/" + path
  }

  function StorageOf(t: Tables, id: nat): Option<Storage> {
    var i := IndexOf(t.storages, id);
    if i < |t.storages| then Some(t.storages[i]) else None
  }

  /** The absolute path of a recording, found through its storage. */
  function SegmentPath(t: Tables, key: nat): Option<string>
    requires key in t.segments
  {
    var segment := t.segments[key];
    var storage := StorageOf(t, segment.storage);
    if storage.Some? then Some(Join(storage.value.path, segment.path)) else None
  }

  lemma {:induction false} IndexAfterAppend(storages: seq<Storage>, s: Storage, id: nat)
    requires IndexOf(storages, id) < |storages|
    ensures IndexOf(storages + [s], id) == IndexOf(storages, id)
    decreases |storages|
  {
    if storages[0].id != id {
      assert (storages + [s])[1..] == storages[1..] + [s];
      IndexAfterAppend(storages[1..], s, id);
    }
  }

  lemma {:induction false} IndexIsFirst(storages: seq<Storage>, id: nat, i: nat)
    requires i < |storages| && storages[i].id == id && forall j :: 0 <= j < i ==> storages[j].id != id
    ensures IndexOf(storages, id) == i
    decreases i
  {
    if i > 0 {
      assert storages[0].id != id;
      IndexIsFirst(storages[1..], id, i - 1);
    }
  }

  /** The same location is found first, with the same path. */
  ghost predicate KeepsPath(t: Tables, t': Tables, id: nat) {
    var before, after := StorageOf(t, id), StorageOf(t', id);
    before.Some? && after.Some? && after.value.path == before.value.path
  }

  lemma CreateKeepsPath(w: Site, t: Tables, added: nat, name: string, path: string, id: nat)
    requires Listed(t, id)
    ensures KeepsPath(t, Create(w, t, added, name, path).0, id)
  {
    IndexAfterAppend(t.storages, Storage(added, name, path), id);
  }

  lemma UpdateKeepsPath(w: Site, t: Tables, other: nat, name: Option<string>,
                        path: Option<string>, id: nat)
    requires Listed(t, id) && Holds(t, id)
    ensures KeepsPath(t, Update(w, t, other, name, path).0, id)
  {
    var t', i := Update(w, t, other, name, path).0, IndexOf(t.storages, id);
    if t' != t {
      IndexIsFirst(t'.storages, id, i);
    }
  }

  lemma {:induction false} IndexAfterRemoval(storages: seq<Storage>, k: nat, id: nat)
    requires k < |storages| && IndexOf(storages, id) < |storages| && IndexOf(storages, id) != k
    ensures var i := IndexOf(storages, id);
            IndexOf(storages[..k] + storages[k + 1..], id) == if i < k then i else i - 1
    decreases k
  {
    var rest := storages[..k] + storages[k + 1..];
    if k == 0 {
      assert rest == storages[1..];
    } else {
      var tail := storages[1..];
      assert rest[0] == storages[0] && rest[1..] == tail[..k - 1] + tail[k..];
      if storages[0].id != id {
        IndexAfterRemoval(tail, k - 1, id);
      }
    }
  }

  lemma FoundAfterRemoval(storages: seq<Storage>, k: nat, id: nat)
    requires k < |storages| && IndexOf(storages, id) < |storages| && IndexOf(storages, id) != k
    ensures var rest := storages[..k] + storages[k + 1..];
            IndexOf(rest, id) < |rest| && rest[IndexOf(rest, id)] == storages[IndexOf(storages, id)]
  {
    IndexAfterRemoval(storages, k, id);
  }

  lemma DeleteKeepsPath(t: Tables, other: nat, id: nat)
    requires Listed(t, id) && Holds(t, id)
    ensures KeepsPath(t, Delete(t, other).0, id)
  {
    if Delete(t, other).0 != t {
      FoundAfterRemoval(t.storages, IndexOf(t.storages, other), id);
    }
  }

  /** A location that holds recordings keeps its path through every step. */
  lemma HoldingStorageStays(w: Site, t: Tables, a: Action, id: nat)
    requires References(t) && Holds(t, id)
    ensures Listed(t, id) && KeepsPath(t, Apply(w, t, a), id)
  {
    match a
    case CreateStorage(added, name, path) => CreateKeepsPath(w, t, added, name, path, id);
    case UpdateStorage(other, name, path) => UpdateKeepsPath(w, t, other, name, path, id);
    case DeleteStorage(other) => DeleteKeepsPath(t, other, id);
    case _ => OtherStepsKeepReferences(w, t, a);
  }

  ghost predicate SamePath(t: Tables, t': Tables, key: nat) {
    && key in t.segments && key in t'.segments
    && SegmentPath(t', key) == SegmentPath(t, key) && SegmentPath(t, key).Some?
  }

  lemma ListedSegmentHasPath(t: Tables, key: nat)
    requires References(t) && key in t.segments
    ensures SamePath(t, t, key)
  {
  }

  lemma StepKeepsSegmentPath(w: Site, t: Tables, a: Action, key: nat)
    requires References(t) && key in t.segments && key in Apply(w, t, a).segments
    ensures SamePath(t, Apply(w, t, a), key)
  {
    HoldingStorageStays(w, t, a, t.segments[key].storage);
  }

  lemma {:induction false} SamePathThroughout(states: seq<Tables>, first: nat, last: nat, key: nat)
    requires first <= last < |states| && SamePath(states[first], states[first], key)
    requires forall m: nat :: first <= m < last ==> SamePath(states[m], states[m + 1], key)
    ensures SamePath(states[first], states[last], key)
    decreases last
  {
    if first < last {
      SamePathThroughout(states, first, last - 1, key);
      assert SamePath(states[last - 1], states[last - 1 + 1], key);
    }
  }
}
