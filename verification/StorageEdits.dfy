/** What each handler of the recording locations does and when it refuses, in terms of files,
    rows and the paths that were sent. */
module StorageEdits {
  import opened Options
  import opened Storages

  // ---- overlap ----------------------------------------------------------------

  ghost predicate AllUnder(a: seq<string>, b: seq<string>) {
    forall f: seq<string> :: Under(f, a) ==> Under(f, b)
  }

  lemma AllUnderExactly(a: seq<string>, b: seq<string>)
    ensures AllUnder(a, b) <==> b <= a
  {
    assert Under(a, a);
    if b <= a {
      forall f: seq<string> | Under(f, a)
        ensures Under(f, b)
      {
        assert f[..|b|] == a[..|b|] == b;
      }
    }
  }

  /** The relation that is reported: the two folders hold the same files, all files of the new one
      are in the other, or the other way round; none if they share no file. */
  lemma RelationMeans(a: seq<string>, b: seq<string>)
    ensures RelationTo(a, b) == Some(Same) <==> AllUnder(a, b) && AllUnder(b, a)
    ensures RelationTo(a, b) == Some(Inside) <==> AllUnder(a, b) && !AllUnder(b, a)
    ensures RelationTo(a, b) == Some(Contains) <==> !AllUnder(a, b) && AllUnder(b, a)
    ensures RelationTo(a, b) == None <==> forall f: seq<string> :: !(Under(f, a) && Under(f, b))
  {
    AllUnderExactly(a, b);
    AllUnderExactly(b, a);
    ApartIffNothingShared(a, b);
    assert a <= b && b <= a ==> a == b;
  }

  lemma {:induction false} FirstIsFirst<T, R>(s: seq<T>, f: T -> Option<R>) returns (i: nat)
    requires FirstOf(s, f).Some?
    ensures i < |s| && f(s[i]) == FirstOf(s, f) && forall j :: 0 <= j < i ==> f(s[j]).None?
    decreases |s|
  {
    if f(s[0]).Some? {
      i := 0;
    } else {
      var k := FirstIsFirst(s[1..], f);
      i := k + 1;
      assert forall j :: 0 < j < i ==> s[j] == s[1..][j - 1];
    }
  }

  /** The location that is named is the first in the list that shares a file with the new one,
      other than the one that is changed. */
  lemma FirstOverlapIsNamed(w: Site, candidate: string, existing: seq<Storage>, exclude: Option<nat>) returns (i: nat)
    requires FirstOverlap(w, candidate, existing, exclude).Some?
    ensures i < |existing| && exclude != Some(existing[i].id)
    ensures RelationTo(w.place(candidate), w.place(existing[i].path)).Some?
    ensures FirstOverlap(w, candidate, existing, exclude)
         == Some(Overlaps(existing[i].id, RelationTo(w.place(candidate), w.place(existing[i].path)).value))
    ensures forall j :: 0 <= j < i && exclude != Some(existing[j].id) ==>
      RelationTo(w.place(candidate), w.place(existing[j].path)).None?
  {
    i := FirstIsFirst(existing, other => OverlapWith(w, candidate, other, exclude));
    forall j | 0 <= j < i && exclude != Some(existing[j].id)
      ensures RelationTo(w.place(candidate), w.place(existing[j].path)).None?
    {
      assert OverlapWith(w, candidate, existing[j], exclude).None?;
    }
  }

  // ---- the handlers -----------------------------------------------------------

  ghost predicate Shares(w: Site, path: string, other: Storage) {
    exists f: seq<string> :: Under(f, w.place(path)) && Under(f, w.place(other.path))
  }

  /** Some location other than the one that is changed shares a file with the path. */
  ghost predicate Taken(w: Site, t: Tables, path: string, exclude: Option<nat>) {
    exists s :: s in t.storages && exclude != Some(s.id) && Shares(w, path, s)
  }

  ghost predicate Named(t: Tables, name: string, exclude: Option<nat>) {
    exists s :: s in t.storages && exclude != Some(s.id) && s.name == name
  }

  lemma TakenExactly(w: Site, t: Tables, path: string, exclude: Option<nat>)
    ensures FirstOverlap(w, path, t.storages, exclude).Some? <==> Taken(w, t, path, exclude)
  {
    OverlapsExactly(w, path, t.storages, exclude);
    forall i | 0 <= i < |t.storages|
      ensures Clear(w, path, t.storages[i], exclude) <==> exclude == Some(t.storages[i].id) || !Shares(w, path, t.storages[i])
    {
      ApartIffNothingShared(w.place(path), w.place(t.storages[i].path));
    }
    if !Taken(w, t, path, exclude) {
      forall i | 0 <= i < |t.storages|
        ensures Clear(w, path, t.storages[i], exclude)
      {
        assert t.storages[i] in t.storages;
      }
    }
  }

  lemma NamedExactly(t: Tables, name: string, exclude: Option<nat>)
    ensures NameInUse(t, name, exclude) <==> Named(t, name, exclude)
  {
    if NameInUse(t, name, exclude) {
      var i :| 0 <= i < |t.storages| && t.storages[i].name == name && exclude != Some(t.storages[i].id);
      assert t.storages[i] in t.storages;
    }
  }

  /** A location is created exactly if its path passes the checks, no location shares a file with
      it and none has its name; then its row is the last, and nothing else changes. */
  lemma CreatesExactly(w: Site, t: Tables, id: nat, name: string, path: string)
    ensures var (t', refusal) := Create(w, t, id, name, path);
      && (refusal.None? <==> w.bad(path).None? && !Taken(w, t, path, None) && !Named(t, name, None))
      && (refusal == Some(NameTaken) <==> w.bad(path).None? && !Taken(w, t, path, None) && Named(t, name, None))
      && (w.bad(path).Some? ==> refusal == Some(BadPath(w.bad(path).value)))
      && (refusal.Some? ==> t' == t)
      && (refusal.None? ==> t' == Tables(t.storages + [Storage(id, name, path)], t.segments, t.policies))
  {
    TakenExactly(w, t, path, None);
    NamedExactly(t, name, None);
    if FirstOverlap(w, path, t.storages, None).Some? {
      var i := FirstOverlapIsNamed(w, path, t.storages, None);
    }
  }

  /** The path that was sent differs from the stored one, once both are reduced lexically. */
  predicate ReallyMoves(w: Site, current: Storage, path: Option<string>) {
    match path
    case None => false
    case Some(p) => w.lexical(p) != w.lexical(current.path)
  }

  ghost predicate HasRecording(t: Tables, id: nat) {
    exists k :: k in t.segments && t.segments[k].storage == id
  }

  ghost predicate NameIsFree(t: Tables, name: Option<string>, id: nat) {
    match name
    case None => true
    case Some(n) => !Named(t, n, Some(id))
  }

  /** A location is changed exactly if it is listed, a path that really moves it finds no recording
      there, passes the checks and shares no file with another location, and no other location
      has the name; then its name is the one sent, if any, its path the one sent if that moves
      it, and every other row stays. */
  lemma UpdatesExactly(w: Site, t: Tables, i: nat, name: Option<string>, path: Option<string>)
    requires i < |t.storages| && forall j :: 0 <= j < i ==> t.storages[j].id != t.storages[i].id
    ensures var s := t.storages[i];
      var (t', refusal) := Update(w, t, s.id, name, path);
      && (refusal == Some(HoldsRecordings) <==> ReallyMoves(w, s, path) && HasRecording(t, s.id))
      && (refusal.None? <==>
            && (ReallyMoves(w, s, path) ==>
                  !HasRecording(t, s.id) && w.bad(path.value).None? && !Taken(w, t, path.value, Some(s.id)))
            && NameIsFree(t, name, s.id))
      && (refusal.Some? ==> t' == t)
      && (refusal.None? ==>
            && t'.segments == t.segments && t'.policies == t.policies && |t'.storages| == |t.storages|
            && (forall j :: 0 <= j < |t.storages| && j != i ==> t'.storages[j] == t.storages[j])
            && t'.storages[i].id == s.id
            && t'.storages[i].name == (match name case Some(n) => n case None => s.name)
            && t'.storages[i].path == (if ReallyMoves(w, s, path) then path.value else s.path))
  {
    var s := t.storages[i];
    IndexIsFirst(t.storages, s.id, i);
    if path.Some? {
      TakenExactly(w, t, path.value, Some(s.id));
      if FirstOverlap(w, path.value, t.storages, Some(s.id)).Some? {
        var k := FirstOverlapIsNamed(w, path.value, t.storages, Some(s.id));
      }
    }
    if name.Some? {
      NamedExactly(t, name.value, Some(s.id));
    }
  }

  /** A location is deleted exactly if it is listed, holds no recording and no policy writes to it;
      then its row is gone and the others stay in order. */
  lemma DeletesExactly(t: Tables, i: nat)
    requires i < |t.storages| && forall j :: 0 <= j < i ==> t.storages[j].id != t.storages[i].id
    ensures var id := t.storages[i].id;
      var (t', refusal) := Delete(t, id);
      && (refusal.None? <==>
            && !HasRecording(t, id)
            && forall p :: p in t.policies ==> t.policies[p].live != Some(id) && t.policies[p].archive != Some(id))
      && (refusal == Some(HoldsRecordings) <==> HasRecording(t, id))
      && (refusal.Some? ==> t' == t)
      && (refusal.None? ==> t' == Tables(t.storages[..i] + t.storages[i + 1..], t.segments, t.policies))
  {
    IndexIsFirst(t.storages, t.storages[i].id, i);
  }

  /** A location that is not listed is not found. */
  lemma UnlistedIsNotFound(w: Site, t: Tables, id: nat, name: Option<string>, path: Option<string>)
    requires forall i :: 0 <= i < |t.storages| ==> t.storages[i].id != id
    ensures Update(w, t, id, name, path) == (t, Some(NotFound)) && Delete(t, id) == (t, Some(NotFound))
  {
  }
}
