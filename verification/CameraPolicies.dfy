/** Copy-on-write editing of a camera's recording policy.

    A camera edit under the lock does one of four things: nothing, join a policy that
    already has the wanted fields, edit the camera's own deviation in place, or mint a new
    deviation. `EditStep` says what each does to the tables; `PolicyDb` performs it row by
    row; the lemmas say what an administrator may rely on, whichever branch ran. */
module CameraPolicies {
  import opened Options
  import opened PolicyFields
  import opened Lexicographic
  import PolicyNames

  type PolicyId = nat
  type CameraId = nat
  type GroupId = nat

  datatype Origin = Operator | Deviation
  datatype Policy = Policy(name: string, isDefault: bool, origin: Origin, fields: Fields)
  datatype Camera = Camera(name: string, pin: Option<PolicyId>, group: Option<GroupId>)

  datatype Tables = Tables(
    policies: map<PolicyId, Policy>,
    cameras: map<CameraId, Camera>,
    groups: map<GroupId, Option<PolicyId>>)

  // ---- what the tables promise ------------------------------------------------

  ghost predicate OneDefault(t: Tables) {
    && (exists d :: d in t.policies && t.policies[d].isDefault)
    && forall d, e :: d in t.policies && e in t.policies && t.policies[d].isDefault && t.policies[e].isDefault ==> d == e
  }

  ghost predicate NamesUnique(t: Tables) {
    forall p, q :: p in t.policies && q in t.policies && t.policies[p].name == t.policies[q].name ==> p == q
  }

  ghost predicate ReferencesResolve(t: Tables) {
    && (forall c :: c in t.cameras && t.cameras[c].pin.Some? ==> t.cameras[c].pin.value in t.policies)
    && (forall c :: c in t.cameras && t.cameras[c].group.Some? ==> t.cameras[c].group.value in t.groups)
    && (forall g :: g in t.groups && t.groups[g].Some? ==> t.groups[g].value in t.policies)
  }

  ghost predicate Valid(t: Tables) {
    OneDefault(t) && NamesUnique(t) && ReferencesResolve(t)
  }

  ghost function DefaultId(t: Tables): (d: PolicyId)
    requires OneDefault(t)
    ensures d in t.policies && t.policies[d].isDefault
  {
    var d :| d in t.policies && t.policies[d].isDefault; d
  }

  /** A camera's effective policy: its own pin, else its group's, else the Default. */
  ghost function EffectiveId(t: Tables, c: CameraId): (p: PolicyId)
    requires Valid(t) && c in t.cameras
    ensures p in t.policies
  {
    var cam := t.cameras[c];
    if cam.pin.Some? then cam.pin.value
    else if cam.group.Some? && t.groups[cam.group.value].Some? then t.groups[cam.group.value].value
    else DefaultId(t)
  }

  ghost function EffectiveFields(t: Tables, c: CameraId): Fields
    requires Valid(t) && c in t.cameras
  {
    t.policies[EffectiveId(t, c)].fields
  }

  predicate Referenced(t: Tables, p: PolicyId) {
    || (exists c :: c in t.cameras && t.cameras[c].pin == Some(p))
    || exists g :: g in t.groups && t.groups[g] == Some(p)
  }

  predicate IsOrphan(t: Tables, p: PolicyId) {
    p in t.policies && !t.policies[p].isDefault && t.policies[p].origin == Deviation && !Referenced(t, p)
  }

  /** Default, then operator templates, then deviations. */
  function Rank(p: Policy): nat {
    if p.isDefault then 0 else if p.origin == Operator then 1 else 2
  }

  predicate Preferred(p: Policy, q: Policy) {
    Rank(p) < Rank(q) || (Rank(p) == Rank(q) && Before(p.name, q.name))
  }

  /** `m` is the policy a field-set rejoins: it has those fields and is preferred to every
      other policy that has them. */
  ghost predicate IsBestMatch(t: Tables, w: Fields, m: PolicyId) {
    && m in t.policies && t.policies[m].fields == w
    && forall q :: q in t.policies && t.policies[q].fields == w && q != m ==> Preferred(t.policies[m], t.policies[q])
  }

  ghost predicate NoMatch(t: Tables, w: Fields) {
    forall q :: q in t.policies ==> t.policies[q].fields != w
  }

  lemma BestMatchIsUnique(t: Tables, w: Fields, m: PolicyId, n: PolicyId)
    requires IsBestMatch(t, w, m) && IsBestMatch(t, w, n)
    ensures m == n
  {
    BeforeIsStrictOrder(t.policies[m].name, t.policies[n].name, "");
  }

  // ---- the row operations -----------------------------------------------------

  function WithPin(t: Tables, c: CameraId, p: PolicyId): Tables
    requires c in t.cameras
  {
    t.(cameras := t.cameras[c := t.cameras[c].(pin := Some(p))])
  }

  function WithFields(t: Tables, p: PolicyId, w: Fields): Tables
    requires p in t.policies
  {
    t.(policies := t.policies[p := t.policies[p].(fields := w)])
  }

  function WithPolicy(t: Tables, p: PolicyId, policy: Policy): Tables {
    t.(policies := t.policies[p := policy])
  }

  /** Drop `p` if it is a deviation nobody refers to any more. */
  function Reap(t: Tables, p: PolicyId): Tables {
    if IsOrphan(t, p) then t.(policies := t.policies - {p}) else t
  }

  /** The camera's own pin is a deviation that only this camera is pinned to. */
  ghost predicate SolelyOwnsDeviation(t: Tables, c: CameraId)
    requires c in t.cameras
  {
    var pin := t.cameras[c].pin;
    && pin.Some? && pin.value in t.policies
    && !t.policies[pin.value].isDefault && t.policies[pin.value].origin == Deviation
    && forall d :: d in t.cameras && t.cameras[d].pin == pin ==> d == c
  }

  // ---- one edit ---------------------------------------------------------------

  datatype Outcome =
    | Unchanged(policy: PolicyId)
    | Joined(policy: PolicyId)
    | EditedInPlace(policy: PolicyId)
    | Minted(policy: PolicyId, name: string)
    | Failed(error: Error)

  /** Which branch an edit of camera `c` to the fields `w` takes. */
  ghost predicate Chosen(t: Tables, c: CameraId, w: Fields, o: Outcome)
    requires Valid(t) && c in t.cameras
  {
    match o
    case Unchanged(m) => IsBestMatch(t, w, m) && m == EffectiveId(t, c)
    case Joined(m) => IsBestMatch(t, w, m) && m != EffectiveId(t, c)
    case EditedInPlace(m) => NoMatch(t, w) && SolelyOwnsDeviation(t, c) && t.cameras[c].pin == Some(m)
    case Minted(m, name) =>
      && NoMatch(t, w) && !SolelyOwnsDeviation(t, c) && m !in t.policies
      && PolicyNames.IsMinted(name, TakenNames(t), t.cameras[c].name)
    case Failed(_) => false
  }

  /** The tables once the chosen branch has written its rows, with the policy the camera
      left still there. */
  ghost function Written(t: Tables, c: CameraId, w: Fields, o: Outcome): Tables
    requires Valid(t) && c in t.cameras && Chosen(t, c, w, o)
  {
    match o
    case Unchanged(_) => t
    case Joined(m) => WithPin(t, c, m)
    case EditedInPlace(m) => WithFields(t, m, w)
    case Minted(m, name) => WithPin(WithPolicy(t, m, Policy(name, false, Deviation, w)), c, m)
  }

  ghost function After(t: Tables, c: CameraId, w: Fields, o: Outcome): Tables
    requires Valid(t) && c in t.cameras && Chosen(t, c, w, o)
  {
    var u := Written(t, c, w, o);
    if (o.Joined? || o.Minted?) && t.cameras[c].pin.Some? then Reap(u, t.cameras[c].pin.value) else u
  }

  /** Why a request is refused before anything is written, if it is. */
  ghost function Refusal(t: Tables, c: CameraId, r: Request): Option<Error>
    requires Valid(t)
  {
    if !WellFormed(r) then Some(InvalidValue)
    else if c !in t.cameras then Some(CameraNotFound)
    else if t.cameras[c].group.Some? then Some(CameraIsGrouped)
    else match Resolve(EffectiveFields(t, c), r)
      case Rejected(e) => Some(e)
      case Resolved(_) => None
  }

  /** What an accepted edit asks for: the request patched over the effective fields. */
  ghost function Wanted(t: Tables, c: CameraId, r: Request): Fields
    requires Valid(t) && Refusal(t, c, r).None?
  {
    Resolve(EffectiveFields(t, c), r).fields
  }

  ghost predicate EditStep(t: Tables, c: CameraId, r: Request, t': Tables, o: Outcome)
    requires Valid(t)
  {
    match Refusal(t, c, r)
    case Some(e) => t' == t && o == Failed(e)
    case None => Chosen(t, c, Wanted(t, c, r), o) && t' == After(t, c, Wanted(t, c, r), o)
  }

  function TakenNames(t: Tables): set<string> {
    set p | p in t.policies :: t.policies[p].name
  }

  // ---- what each row operation keeps ------------------------------------------

  lemma DefaultIs(t: Tables, d: PolicyId)
    requires OneDefault(t) && d in t.policies && t.policies[d].isDefault
    ensures DefaultId(t) == d
  {
  }

  lemma PinKeepsValid(t: Tables, c: CameraId, p: PolicyId)
    requires Valid(t) && c in t.cameras && p in t.policies
    ensures Valid(WithPin(t, c, p)) && DefaultId(WithPin(t, c, p)) == DefaultId(t)
  {
    assert WithPin(t, c, p).policies == t.policies;
    DefaultIs(WithPin(t, c, p), DefaultId(t));
  }

  lemma FieldsKeepValid(t: Tables, p: PolicyId, w: Fields)
    requires Valid(t) && p in t.policies
    ensures Valid(WithFields(t, p, w)) && DefaultId(WithFields(t, p, w)) == DefaultId(t)
  {
    var t' := WithFields(t, p, w);
    assert forall q :: q in t.policies ==>
      t'.policies[q].name == t.policies[q].name && t'.policies[q].isDefault == t.policies[q].isDefault;
    assert t'.policies[DefaultId(t)].isDefault;
    DefaultIs(t', DefaultId(t));
  }

  lemma CreateKeepsValid(t: Tables, p: PolicyId, policy: Policy)
    requires Valid(t) && p !in t.policies && !policy.isDefault && policy.name !in TakenNames(t)
    ensures Valid(WithPolicy(t, p, policy)) && DefaultId(WithPolicy(t, p, policy)) == DefaultId(t)
  {
    var t' := WithPolicy(t, p, policy);
    assert forall q :: q in t.policies ==> t'.policies[q] == t.policies[q] && t.policies[q].name != policy.name;
    assert t'.policies[DefaultId(t)].isDefault;
    DefaultIs(t', DefaultId(t));
  }

  lemma ReapKeepsValid(t: Tables, p: PolicyId)
    requires Valid(t)
    ensures Valid(Reap(t, p)) && DefaultId(Reap(t, p)) == DefaultId(t)
  {
    if IsOrphan(t, p) {
      var t' := Reap(t, p);
      assert t'.policies[DefaultId(t)].isDefault;
      assert ReferencesResolve(t') by {
        assert !Referenced(t, p);
      }
      DefaultIs(t', DefaultId(t));
    }
  }

  /** A camera's effective policy is never an orphan, so reaping cannot reach it. */
  lemma EffectiveIsNotOrphan(t: Tables, d: CameraId)
    requires Valid(t) && d in t.cameras
    ensures !IsOrphan(t, EffectiveId(t, d))
  {
    var p := EffectiveId(t, d);
    if p != DefaultId(t) {
      assert Referenced(t, p);
    }
  }

  lemma ReapKeepsPolicy(t: Tables, p: PolicyId, q: PolicyId)
    requires q in t.policies && !IsOrphan(t, q)
    ensures q in Reap(t, p).policies && Reap(t, p).policies[q] == t.policies[q]
  {
  }

  // ---- what an edit guarantees ------------------------------------------------

  lemma WrittenIsValid(t: Tables, c: CameraId, w: Fields, o: Outcome)
    requires Valid(t) && c in t.cameras && Chosen(t, c, w, o)
    ensures Valid(Written(t, c, w, o)) && DefaultId(Written(t, c, w, o)) == DefaultId(t)
  {
    match o
    case Unchanged(_) =>
    case Joined(m) => PinKeepsValid(t, c, m);
    case EditedInPlace(m) => FieldsKeepValid(t, m, w);
    case Minted(m, name) =>
      var policy := Policy(name, false, Deviation, w);
      CreateKeepsValid(t, m, policy);
      PinKeepsValid(WithPolicy(t, m, policy), c, m);
  }

  lemma AfterIsValid(t: Tables, c: CameraId, w: Fields, o: Outcome)
    requires Valid(t) && c in t.cameras && Chosen(t, c, w, o)
    ensures Valid(After(t, c, w, o)) && DefaultId(After(t, c, w, o)) == DefaultId(t)
  {
    WrittenIsValid(t, c, w, o);
    if t.cameras[c].pin.Some? {
      ReapKeepsValid(Written(t, c, w, o), t.cameras[c].pin.value);
    }
  }

  lemma AfterKeepsRow(t: Tables, c: CameraId, w: Fields, o: Outcome, q: PolicyId)
    requires Valid(t) && c in t.cameras && Chosen(t, c, w, o) && Valid(Written(t, c, w, o))
    requires q in Written(t, c, w, o).policies && !IsOrphan(Written(t, c, w, o), q)
    ensures q in After(t, c, w, o).policies && After(t, c, w, o).policies[q] == Written(t, c, w, o).policies[q]
  {
    if t.cameras[c].pin.Some? {
      ReapKeepsPolicy(Written(t, c, w, o), t.cameras[c].pin.value, q);
    }
  }

  lemma OwnResolution(t: Tables, c: CameraId, w: Fields, o: Outcome)
    requires Valid(t) && c in t.cameras && t.cameras[c].group.None? && Chosen(t, c, w, o)
    requires Valid(Written(t, c, w, o)) && Valid(After(t, c, w, o))
    ensures c in After(t, c, w, o).cameras && c in Written(t, c, w, o).cameras
    ensures EffectiveId(Written(t, c, w, o), c) == o.policy
    ensures EffectiveId(After(t, c, w, o), c) == o.policy && EffectiveFields(After(t, c, w, o), c) == w
  {
    var u := Written(t, c, w, o);
    assert EffectiveId(u, c) == o.policy && EffectiveFields(u, c) == w;
    EffectiveIsNotOrphan(u, c);
    AfterKeepsRow(t, c, w, o, o.policy);
    AfterIsValid(t, c, w, o);
    WrittenIsValid(t, c, w, o);
  }

  /** Writing the rows leaves every other camera under its policy. */
  lemma OthersStay(t: Tables, c: CameraId, w: Fields, o: Outcome, d: CameraId)
    requires Valid(t) && c in t.cameras && Chosen(t, c, w, o) && d in t.cameras && d != c
    requires Valid(Written(t, c, w, o)) && DefaultId(Written(t, c, w, o)) == DefaultId(t)
    ensures d in Written(t, c, w, o).cameras
    ensures EffectiveId(Written(t, c, w, o), d) == EffectiveId(t, d)
    ensures EffectiveFields(Written(t, c, w, o), d)
         == if o.EditedInPlace? && EffectiveId(t, d) == o.policy then w else EffectiveFields(t, d)
  {
  }

  /** Reaping what the camera left leaves every camera under its policy. */
  lemma ReapingSparesAll(t: Tables, c: CameraId, w: Fields, o: Outcome, d: CameraId)
    requires Valid(t) && c in t.cameras && Chosen(t, c, w, o)
    requires Valid(Written(t, c, w, o)) && d in Written(t, c, w, o).cameras
    requires Valid(After(t, c, w, o)) && DefaultId(After(t, c, w, o)) == DefaultId(Written(t, c, w, o))
    ensures d in After(t, c, w, o).cameras
    ensures EffectiveId(After(t, c, w, o), d) == EffectiveId(Written(t, c, w, o), d)
    ensures EffectiveFields(After(t, c, w, o), d) == EffectiveFields(Written(t, c, w, o), d)
  {
    var u := Written(t, c, w, o);
    EffectiveIsNotOrphan(u, d);
    AfterKeepsRow(t, c, w, o, EffectiveId(u, d));
  }

  lemma OthersResolution(t: Tables, c: CameraId, w: Fields, o: Outcome, d: CameraId)
    requires Valid(t) && c in t.cameras && Chosen(t, c, w, o) && d in t.cameras && d != c
    requires Valid(Written(t, c, w, o)) && Valid(After(t, c, w, o))
    ensures d in After(t, c, w, o).cameras
    ensures EffectiveId(After(t, c, w, o), d) == EffectiveId(t, d)
    ensures EffectiveFields(After(t, c, w, o), d)
         == if o.EditedInPlace? && EffectiveId(t, d) == o.policy then w else EffectiveFields(t, d)
  {
    AfterIsValid(t, c, w, o);
    WrittenIsValid(t, c, w, o);
    OthersStay(t, c, w, o, d);
    ReapingSparesAll(t, c, w, o, d);
  }

  /** After an accepted edit the camera records with exactly the request patched over its
      old settings, under the policy that is returned; a refused one changes nothing. */
  lemma EditTakesEffect(t: Tables, c: CameraId, r: Request, t': Tables, o: Outcome)
    requires Valid(t) && EditStep(t, c, r, t', o)
    ensures Valid(t')
    ensures !o.Failed? ==> c in t.cameras && c in t'.cameras && EffectiveId(t', c) == o.policy
    ensures !o.Failed? ==> Resolve(EffectiveFields(t, c), r) == Resolved(EffectiveFields(t', c))
    ensures o.Failed? ==> t' == t
  {
    if Refusal(t, c, r).None? {
      var w := Wanted(t, c, r);
      WrittenIsValid(t, c, w, o);
      AfterIsValid(t, c, w, o);
      OwnResolution(t, c, w, o);
    }
  }

  /** After an accepted edit each of the twenty settings the camera records with is the value
      that was sent, or what it was before if none was sent, and settings in range stay so. */
  lemma EditSetsWhatWasSent(t: Tables, c: CameraId, r: Request, t': Tables, o: Outcome)
    requires Valid(t) && EditStep(t, c, r, t', o) && !o.Failed?
    ensures Valid(t') && c in t.cameras && c in t'.cameras
    ensures Follows(r, EffectiveFields(t, c), EffectiveFields(t', c))
    ensures InRange(EffectiveFields(t, c)) ==> InRange(EffectiveFields(t', c))
  {
    EditTakesEffect(t, c, r, t', o);
    var was := EffectiveFields(t, c);
    ResolvesExactly(r, was);
    PatchedFollows(r, was);
    if InRange(was) {
      PatchedInRange(r, was);
    }
  }

  /** Exactly when and why an edit is refused: a value by itself, the camera, its group, a cap
      on the archive without an archive, or a spill target that reaches a cap, in this order. */
  lemma EditIsRefusedExactly(t: Tables, c: CameraId, r: Request, t': Tables, o: Outcome)
    requires Valid(t) && EditStep(t, c, r, t', o)
    ensures o == Failed(InvalidValue) <==> !WellFormed(r)
    ensures o == Failed(CameraNotFound) <==> WellFormed(r) && c !in t.cameras
    ensures o == Failed(CameraIsGrouped) <==> WellFormed(r) && c in t.cameras && t.cameras[c].group.Some?
    ensures WellFormed(r) && c in t.cameras && t.cameras[c].group.None? ==>
      var was := EffectiveFields(t, c);
      && (o == Failed(CapWithoutArchive) <==> CapStandsAlone(r, was))
      && (o == Failed(SpillNotBelowCap) <==> !CapStandsAlone(r, was) && SpillReachesCap(r, was))
      && (o.Failed? <==> CapStandsAlone(r, was) || SpillReachesCap(r, was))
  {
    if WellFormed(r) && c in t.cameras {
      ResolvesExactly(r, EffectiveFields(t, c));
    }
  }

  predicate IsTemplate(p: Policy) {
    !p.isDefault && p.origin == Operator
  }

  predicate IsDeviation(p: Policy) {
    !p.isDefault && p.origin == Deviation
  }

  predicate HasFields(t: Tables, p: PolicyId, w: Fields) {
    p in t.policies && t.policies[p].fields == w
  }

  /** Of the policies with the fields `w`, `m` is the Default if that is one of them, else the
      first operator policy by name if any is, else the first deviation. */
  ghost predicate FirstBySource(t: Tables, w: Fields, m: PolicyId)
    requires m in t.policies
  {
    var p := t.policies[m];
    forall q :: HasFields(t, q, w) && q != m ==>
      var other := t.policies[q];
      && !other.isDefault
      && (IsTemplate(other) ==> p.isDefault || (IsTemplate(p) && Before(p.name, other.name)))
      && (IsDeviation(other) ==> !IsDeviation(p) || Before(p.name, other.name))
  }

  lemma BestMatchIsFirst(t: Tables, w: Fields, m: PolicyId)
    requires OneDefault(t) && IsBestMatch(t, w, m)
    ensures HasFields(t, m, w) && FirstBySource(t, w, m)
  {
    forall q | HasFields(t, q, w) && q != m
      ensures !t.policies[q].isDefault
    {
    }
  }

  /** A policy is written only if none has the wanted settings; otherwise the camera ends
      under the first one that has them, by its source and then by its name. */
  lemma EditPicksBySource(t: Tables, c: CameraId, r: Request, t': Tables, o: Outcome)
    requires Valid(t) && EditStep(t, c, r, t', o) && !o.Failed?
    ensures Valid(t') && c in t'.cameras
    ensures o.Minted? || o.EditedInPlace? <==> !exists p :: HasFields(t, p, EffectiveFields(t', c))
    ensures o.Joined? || o.Unchanged? ==>
      HasFields(t, o.policy, EffectiveFields(t', c)) && FirstBySource(t, EffectiveFields(t', c), o.policy)
  {
    EditTakesEffect(t, c, r, t', o);
    if o.Joined? || o.Unchanged? {
      BestMatchIsFirst(t, Wanted(t, c, r), o.policy);
    }
  }

  /** Before an edit of camera `c`: it will be made in place, on a deviation that camera `d`,
      without a pin of its own, is under through its group. */
  ghost predicate Reaches(t: Tables, c: CameraId, r: Request, d: CameraId)
    requires Valid(t) && d in t.cameras
  {
    && Refusal(t, c, r).None? && NoMatch(t, Wanted(t, c, r)) && SolelyOwnsDeviation(t, c)
    && t.cameras[d].pin.None? && t.cameras[c].pin == Some(EffectiveId(t, d))
  }

  /** No other camera records differently, except exactly those the edit reaches. */
  lemma EditLeavesOthersAlone(t: Tables, c: CameraId, r: Request, t': Tables, o: Outcome, d: CameraId)
    requires Valid(t) && EditStep(t, c, r, t', o) && Valid(t')
    requires d in t.cameras && d != c
    ensures d in t'.cameras
    ensures EffectiveFields(t', d) == EffectiveFields(t, d) <==> !Reaches(t, c, r, d)
  {
    if Refusal(t, c, r).None? {
      var w := Wanted(t, c, r);
      WrittenIsValid(t, c, w, o);
      OthersResolution(t, c, w, o, d);
    }
  }

  /** Only tables with an unpinned camera, such as those of a release before every camera was
      given a pin, have a camera that is reached; there it takes two cameras and a group. */
  lemma UnpinnedCameraIsReached(standard: Fields, own: Fields, r: Request, wanted: Fields) returns (t: Tables)
    requires WellFormed(r) && Resolve(own, r) == Resolved(wanted) && wanted != own && wanted != standard
    ensures Valid(t) && 2 in t.cameras && Reaches(t, 1, r, 2)
  {
    t := Tables(
      map[0 := Policy("Default", true, Operator, standard), 1 := Policy("Gate", false, Deviation, own)],
      map[1 := Camera("Gate", Some(1), None), 2 := Camera("Yard", None, Some(0))],
      map[0 := Some(1)]);
    assert t.policies[0].isDefault && "Default"[0] != "Gate"[0];
    assert Wanted(t, 1, r) == wanted;
  }

  /** The schema gives every camera a pin of its own, so no camera is reached. */
  lemma EditLeavesPinnedCamerasAlone(t: Tables, c: CameraId, r: Request, t': Tables, o: Outcome, d: CameraId)
    requires Valid(t) && EditStep(t, c, r, t', o) && Valid(t')
    requires d in t.cameras && d != c && t.cameras[d].pin.Some?
    ensures d in t'.cameras && EffectiveFields(t', d) == EffectiveFields(t, d)
  {
    EditLeavesOthersAlone(t, c, r, t', o, d);
  }

  /** The Default and operator templates are never touched by a camera edit. */
  lemma EditKeepsTemplates(t: Tables, c: CameraId, r: Request, t': Tables, o: Outcome, q: PolicyId)
    requires Valid(t) && EditStep(t, c, r, t', o)
    requires q in t.policies && (t.policies[q].isDefault || t.policies[q].origin == Operator)
    ensures q in t'.policies && t'.policies[q] == t.policies[q]
  {
    if Refusal(t, c, r).None? {
      var w := Wanted(t, c, r);
      WrittenIsValid(t, c, w, o);
      AfterKeepsRow(t, c, w, o, q);
    }
  }

  /** A camera that still refers to a policy refers to it after the writing, unless it is the
      edited one. */
  lemma ReferencesStay(t: Tables, c: CameraId, w: Fields, o: Outcome, q: PolicyId)
    requires Valid(t) && c in t.cameras && Chosen(t, c, w, o) && Referenced(t, q) && t.cameras[c].pin != Some(q)
    ensures Referenced(Written(t, c, w, o), q)
  {
    var u := Written(t, c, w, o);
    assert u.groups == t.groups;
    if d :| d in t.cameras && t.cameras[d].pin == Some(q) {
      assert d in u.cameras && u.cameras[d] == t.cameras[d];
    }
  }

  lemma MintedIsReferenced(t: Tables, c: CameraId, w: Fields, o: Outcome)
    requires Valid(t) && c in t.cameras && Chosen(t, c, w, o) && (o.Joined? || o.Minted?)
    ensures Referenced(Written(t, c, w, o), o.policy)
  {
    var u := Written(t, c, w, o);
    assert c in u.cameras && u.cameras[c].pin == Some(o.policy);
  }

  lemma WrittenMakesNoOrphan(t: Tables, c: CameraId, w: Fields, o: Outcome, q: PolicyId)
    requires Valid(t) && c in t.cameras && Chosen(t, c, w, o)
    requires IsOrphan(Written(t, c, w, o), q)
    ensures IsOrphan(t, q) || t.cameras[c].pin == Some(q)
    ensures o.Unchanged? || o.EditedInPlace? ==> IsOrphan(t, q)
  {
    if o.Joined? || o.Minted? {
      MintedIsReferenced(t, c, w, o);
      if t.cameras[c].pin != Some(q) && Referenced(t, q) {
        ReferencesStay(t, c, w, o, q);
      }
    } else {
      assert Written(t, c, w, o).cameras == t.cameras && Written(t, c, w, o).groups == t.groups;
    }
  }

  /** No edit leaves an orphaned deviation behind. */
  lemma EditMakesNoOrphan(t: Tables, c: CameraId, r: Request, t': Tables, o: Outcome, q: PolicyId)
    requires Valid(t) && EditStep(t, c, r, t', o) && IsOrphan(t', q)
    ensures IsOrphan(t, q)
  {
    if Refusal(t, c, r).None? {
      AfterMakesNoOrphan(t, c, Wanted(t, c, r), o, q);
    }
  }

  lemma AfterMakesNoOrphan(t: Tables, c: CameraId, w: Fields, o: Outcome, q: PolicyId)
    requires Valid(t) && c in t.cameras && Chosen(t, c, w, o)
    requires IsOrphan(After(t, c, w, o), q)
    ensures IsOrphan(t, q)
  {
    var u, t' := Written(t, c, w, o), After(t, c, w, o);
    assert t'.cameras == u.cameras && t'.groups == u.groups;
    assert IsOrphan(u, q);
    WrittenMakesNoOrphan(t, c, w, o, q);
  }

  /** Two policies with equal fields after an edit were both there, equal, before it. */
  lemma EditMakesNoTwins(t: Tables, c: CameraId, r: Request, t': Tables, o: Outcome, p: PolicyId, q: PolicyId)
    requires Valid(t) && EditStep(t, c, r, t', o)
    requires p in t'.policies && q in t'.policies && p != q && t'.policies[p].fields == t'.policies[q].fields
    ensures p in t.policies && q in t.policies && t.policies[p].fields == t.policies[q].fields
  {
    if Refusal(t, c, r).None? {
      var w := Wanted(t, c, r);
      var u := Written(t, c, w, o);
      assert t'.policies.Keys <= u.policies.Keys && t'.policies[p] == u.policies[p] && t'.policies[q] == u.policies[q];
    }
  }

  ghost predicate SameCameras(t: Tables, t': Tables) {
    && t'.groups == t.groups && t'.cameras.Keys == t.cameras.Keys
    && forall d :: d in t.cameras ==>
         t'.cameras[d].name == t.cameras[d].name && t'.cameras[d].group == t.cameras[d].group
  }

  /** Policies keep their name and kind; a new one is the one that is minted, a deviation. */
  ghost predicate SamePolicies(t: Tables, t': Tables, o: Outcome) {
    forall p :: p in t'.policies ==>
      if p in t.policies then
        && t'.policies[p].name == t.policies[p].name && t'.policies[p].isDefault == t.policies[p].isDefault
        && t'.policies[p].origin == t.policies[p].origin
      else o == Minted(p, t'.policies[p].name) && !t'.policies[p].isDefault && t'.policies[p].origin == Deviation
  }

  lemma WrittenKeepsCameras(t: Tables, c: CameraId, w: Fields, o: Outcome)
    requires Valid(t) && c in t.cameras && Chosen(t, c, w, o)
    ensures SameCameras(t, Written(t, c, w, o))
  {
  }

  lemma WrittenKeepsPolicies(t: Tables, c: CameraId, w: Fields, o: Outcome)
    requires Valid(t) && c in t.cameras && Chosen(t, c, w, o)
    ensures SamePolicies(t, Written(t, c, w, o), o)
  {
  }

  lemma ReapKeepsTheRest(t: Tables, u: Tables, p: PolicyId, o: Outcome)
    requires SameCameras(t, u) && SamePolicies(t, u, o)
    ensures SameCameras(t, Reap(u, p)) && SamePolicies(t, Reap(u, p), o)
  {
  }

  /** An edit gives its camera a policy, and perhaps a policy new settings: no camera changes its
      name or group, no policy its name or kind, and what is created is a deviation. */
  lemma EditKeepsTheRest(t: Tables, c: CameraId, r: Request, t': Tables, o: Outcome)
    requires Valid(t) && EditStep(t, c, r, t', o)
    ensures SameCameras(t, t') && SamePolicies(t, t', o)
  {
    if Refusal(t, c, r).None? {
      var w := Wanted(t, c, r);
      WrittenKeepsCameras(t, c, w, o);
      WrittenKeepsPolicies(t, c, w, o);
      if t.cameras[c].pin.Some? {
        ReapKeepsTheRest(t, Written(t, c, w, o), t.cameras[c].pin.value, o);
      }
    }
  }

  /** After an accepted edit the camera's policy is the best match of its settings. */
  lemma EditSettles(t: Tables, c: CameraId, r: Request, t': Tables, o: Outcome)
    requires Valid(t) && EditStep(t, c, r, t', o) && !o.Failed? && Valid(t') && c in t'.cameras
    ensures IsBestMatch(t', EffectiveFields(t', c), o.policy) && EffectiveId(t', c) == o.policy
  {
    var w := Wanted(t, c, r);
    WrittenIsValid(t, c, w, o);
    OwnResolution(t, c, w, o);
    StillBest(t, c, w, o);
  }

  /** Sending the same request again changes nothing. */
  lemma EditIsIdempotent(t: Tables, c: CameraId, r: Request, t': Tables, o: Outcome, t'': Tables, o': Outcome)
    requires Valid(t) && EditStep(t, c, r, t', o) && !o.Failed?
    requires Valid(t') && EditStep(t', c, r, t'', o')
    ensures t'' == t' && o' == Unchanged(o.policy)
  {
    EditTakesEffect(t, c, r, t', o);
    EditKeepsTheRest(t, c, r, t', o);
    EditSettles(t, c, r, t', o);
    ResolveIsIdempotent(EffectiveFields(t, c), r);
    SettledEdit(t', c, EffectiveFields(t', c), r, t'', o', o.policy);
  }

  lemma SettledEdit(t: Tables, c: CameraId, w: Fields, r: Request, t': Tables, o: Outcome, p: PolicyId)
    requires Valid(t) && c in t.cameras && t.cameras[c].group.None? && WellFormed(r)
    requires Resolve(EffectiveFields(t, c), r) == Resolved(w) && EditStep(t, c, r, t', o)
    requires IsBestMatch(t, w, p) && p == EffectiveId(t, c)
    ensures t' == t && o == Unchanged(p)
  {
    if o.Joined? || o.Unchanged? {
      BestMatchIsUnique(t, w, p, o.policy);
    }
  }

  lemma WrittenIsBest(t: Tables, c: CameraId, w: Fields, o: Outcome)
    requires Valid(t) && c in t.cameras && Chosen(t, c, w, o)
    ensures IsBestMatch(Written(t, c, w, o), w, o.policy)
  {
  }

  lemma ReapKeepsBest(u: Tables, p: PolicyId, w: Fields, m: PolicyId)
    requires IsBestMatch(u, w, m) && !IsOrphan(u, m)
    ensures IsBestMatch(Reap(u, p), w, m)
  {
  }

  lemma StillBest(t: Tables, c: CameraId, w: Fields, o: Outcome)
    requires Valid(t) && c in t.cameras && t.cameras[c].group.None? && Chosen(t, c, w, o)
    requires Valid(Written(t, c, w, o)) && c in Written(t, c, w, o).cameras
    requires EffectiveId(Written(t, c, w, o), c) == o.policy
    ensures IsBestMatch(After(t, c, w, o), w, o.policy)
  {
    var u := Written(t, c, w, o);
    WrittenIsBest(t, c, w, o);
    EffectiveIsNotOrphan(u, c);
    if t.cameras[c].pin.Some? {
      ReapKeepsBest(u, t.cameras[c].pin.value, w, o.policy);
    }
  }

  /** A minted policy is the camera's own: the next edit of the camera to settings that no policy
      has is made in place. */
  lemma MintedIsOwn(t: Tables, c: CameraId, r: Request, t': Tables, m: PolicyId, name: string,
                    r': Request, t'': Tables, o': Outcome)
    requires Valid(t) && EditStep(t, c, r, t', Minted(m, name)) && Valid(t')
    requires EditStep(t', c, r', t'', o') && !o'.Failed?
    requires Refusal(t', c, r').None? && NoMatch(t', Wanted(t', c, r'))
    ensures o' == EditedInPlace(m)
  {
    var w := Wanted(t, c, r);
    var o := Minted(m, name);
    WrittenIsValid(t, c, w, o);
    OwnResolution(t, c, w, o);
    OnlyThatCamera(t, c, w, o);
  }

  lemma OnlyThatCamera(t: Tables, c: CameraId, w: Fields, o: Outcome)
    requires Valid(t) && c in t.cameras && Chosen(t, c, w, o) && o.Minted?
    ensures var t' := After(t, c, w, o);
            && c in t'.cameras && t'.cameras[c].pin == Some(o.policy)
            && forall d :: d in t'.cameras && t'.cameras[d].pin == Some(o.policy) ==> d == c
  {
    assert After(t, c, w, o).cameras == Written(t, c, w, o).cameras;
  }

  // ---- whole runs -------------------------------------------------------------

  datatype Edit = Edit(camera: CameraId, request: Request, outcome: Outcome)

  /** The tables before each of a run of locked edits, and after the last. */
  ghost predicate IsRun(ts: seq<Tables>, es: seq<Edit>) {
    |ts| == |es| + 1 && Valid(ts[0]) && forall i :: 0 <= i < |es| ==> IsEdit(ts[i], es[i], ts[i + 1])
  }

  ghost predicate IsEdit(t: Tables, e: Edit, t': Tables) {
    Valid(t) ==> EditStep(t, e.camera, e.request, t', e.outcome)
  }

  ghost predicate NoTwins(t: Tables) {
    forall p, q :: p in t.policies && q in t.policies && t.policies[p].fields == t.policies[q].fields ==> p == q
  }

  /** Over every run of locked edits: one Default, unique names, every reference resolves,
      no orphan that was not there at the start, no twins if there were none. */
  lemma {:induction false} RunInvariant(ts: seq<Tables>, es: seq<Edit>, n: nat)
    requires IsRun(ts, es) && n <= |es|
    ensures Valid(ts[n])
    ensures forall q :: IsOrphan(ts[n], q) ==> IsOrphan(ts[0], q)
    ensures NoTwins(ts[0]) ==> NoTwins(ts[n])
  {
    if n > 0 {
      RunInvariant(ts, es, n - 1);
      var e := es[n - 1];
      assert IsEdit(ts[n - 1], e, ts[n - 1 + 1]);
      EditTakesEffect(ts[n - 1], e.camera, e.request, ts[n], e.outcome);
      forall q | IsOrphan(ts[n], q)
        ensures IsOrphan(ts[0], q)
      {
        EditMakesNoOrphan(ts[n - 1], e.camera, e.request, ts[n], e.outcome, q);
      }
      if NoTwins(ts[0]) {
        forall p, q | p in ts[n].policies && q in ts[n].policies && ts[n].policies[p].fields == ts[n].policies[q].fields
          ensures p == q
        {
          if p != q {
            EditMakesNoTwins(ts[n - 1], e.camera, e.request, ts[n], e.outcome, p, q);
          }
        }
      }
    }
  }

  lemma EditLeavesAlone(t: Tables, e: Edit, t': Tables, d: CameraId, q: PolicyId)
    requires Valid(t) && EditStep(t, e.camera, e.request, t', e.outcome) && e.camera != d
    requires d in t.cameras && t.cameras[d].pin.Some?
    requires q in t.policies && (t.policies[q].isDefault || t.policies[q].origin == Operator)
    ensures Valid(t') && d in t'.cameras && t'.cameras[d] == t.cameras[d]
    ensures EffectiveFields(t', d) == EffectiveFields(t, d)
    ensures q in t'.policies && t'.policies[q] == t.policies[q]
  {
    EditTakesEffect(t, e.camera, e.request, t', e.outcome);
    EditLeavesPinnedCamerasAlone(t, e.camera, e.request, t', e.outcome, d);
    EditKeepsTemplates(t, e.camera, e.request, t', e.outcome, q);
    EditKeepsOtherCameras(t, e.camera, e.request, t', e.outcome, d);
  }

  lemma EditKeepsOtherCameras(t: Tables, c: CameraId, r: Request, t': Tables, o: Outcome, d: CameraId)
    requires Valid(t) && EditStep(t, c, r, t', o) && d in t.cameras && d != c
    ensures d in t'.cameras && t'.cameras[d] == t.cameras[d]
  {
    if Refusal(t, c, r).None? {
      AfterKeepsOtherCameras(t, c, Wanted(t, c, r), o, d);
    }
  }

  lemma AfterKeepsOtherCameras(t: Tables, c: CameraId, w: Fields, o: Outcome, d: CameraId)
    requires Valid(t) && c in t.cameras && Chosen(t, c, w, o) && d in t.cameras && d != c
    ensures d in After(t, c, w, o).cameras && After(t, c, w, o).cameras[d] == t.cameras[d]
  {
    assert After(t, c, w, o).cameras == Written(t, c, w, o).cameras;
  }

  /** Camera `d` and template `q` are the same in both tables. */
  ghost predicate LeftAlone(t: Tables, t': Tables, d: CameraId, q: PolicyId) {
    && Valid(t) && Valid(t') && d in t.cameras && d in t'.cameras && t'.cameras[d] == t.cameras[d]
    && EffectiveFields(t', d) == EffectiveFields(t, d)
    && q in t.policies && q in t'.policies && t'.policies[q] == t.policies[q]
  }

  lemma LeftAsIs(t: Tables, d: CameraId, q: PolicyId)
    requires Valid(t) && d in t.cameras && q in t.policies
    ensures LeftAlone(t, t, d, q)
  {
  }

  lemma StepLeavesAlone(t: Tables, before: Tables, e: Edit, after: Tables, d: CameraId, q: PolicyId)
    requires LeftAlone(t, before, d, q) && IsEdit(before, e, after) && e.camera != d
    requires t.cameras[d].pin.Some? && (t.policies[q].isDefault || t.policies[q].origin == Operator)
    ensures LeftAlone(t, after, d, q)
  {
    EditLeavesAlone(before, e, after, d, q);
  }

  /** A pinned camera nobody edits keeps its recording settings over every run, and a
      template keeps its row. */
  lemma {:induction false} RunLeavesAlone(ts: seq<Tables>, es: seq<Edit>, n: nat, d: CameraId, q: PolicyId)
    requires IsRun(ts, es) && n <= |es|
    requires d in ts[0].cameras && ts[0].cameras[d].pin.Some?
    requires forall i :: 0 <= i < n ==> es[i].camera != d
    requires q in ts[0].policies && (ts[0].policies[q].isDefault || ts[0].policies[q].origin == Operator)
    ensures LeftAlone(ts[0], ts[n], d, q)
  {
    if n == 0 {
      LeftAsIs(ts[0], d, q);
    } else {
      RunLeavesAlone(ts, es, n - 1, d, q);
      assert IsEdit(ts[n - 1], es[n - 1], ts[n - 1 + 1]);
      StepLeavesAlone(ts[0], ts[n - 1], es[n - 1], ts[n], d, q);
    }
  }
}
