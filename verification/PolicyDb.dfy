/** The locked camera edit, performed row by row on the policy tables. */
module PolicyDb {
  import opened Options
  import opened PolicyFields
  import opened CameraPolicies
  import opened Lexicographic
  import PolicyNames

  class Database {
    var policies: map<PolicyId, Policy>
    var cameras: map<CameraId, Camera>
    var groups: map<GroupId, Option<PolicyId>>

    ghost function Rows(): Tables
      reads this
    {
      Tables(policies, cameras, groups)
    }

    method GetDefaultPolicy() returns (d: PolicyId)
      requires Valid(Rows())
      ensures d == DefaultId(Rows())
    {
      d :| d in policies && policies[d].isDefault;
    }

    /** The effective policy of an ungrouped camera. */
    method EffectivePolicy(c: CameraId) returns (p: PolicyId)
      requires Valid(Rows()) && c in cameras && cameras[c].group.None?
      ensures p == EffectiveId(Rows(), c)
    {
      if cameras[c].pin.Some? {
        return cameras[c].pin.value;
      }
      p := GetDefaultPolicy();
    }

    method FindMatchingPolicy(w: Fields) returns (m: Option<PolicyId>)
      requires Valid(Rows())
      ensures m.Some? ==> IsBestMatch(Rows(), w, m.value)
      ensures m.None? ==> NoMatch(Rows(), w)
    {
      m := None;
      var todo := policies.Keys;
      while todo != {}
        invariant todo <= policies.Keys
        invariant m.Some? ==> m.value in policies && policies[m.value].fields == w
        invariant forall q :: q in policies && q !in todo && policies[q].fields == w ==>
                    m.Some? && (q == m.value || Preferred(policies[m.value], policies[q]))
        decreases todo
      {
        var q :| q in todo;
        todo := todo - {q};
        if policies[q].fields == w && (m.None? || Preferred(policies[q], policies[m.value])) {
          if m.Some? {
            forall r | r in policies && r !in todo && r != q && policies[r].fields == w
              ensures Preferred(policies[q], policies[r])
            {
              BeforeIsStrictOrder(policies[q].name, policies[m.value].name, policies[r].name);
            }
          }
          m := Some(q);
        } else if m.Some? && policies[q].fields == w {
          BeforeIsStrictOrder(policies[q].name, policies[m.value].name, "");
        }
      }
    }

    method SetCameraPolicy(c: CameraId, p: PolicyId)
      requires c in cameras
      modifies this`cameras
      ensures Rows() == WithPin(old(Rows()), c, p)
    {
      cameras := cameras[c := cameras[c].(pin := Some(p))];
    }

    method CountCamerasForPolicy(p: PolicyId) returns (n: nat)
      ensures n == |PinnedTo(Rows(), p)|
    {
      n := 0;
      var todo := cameras.Keys;
      ghost var counted: set<CameraId> := {};
      while todo != {}
        invariant todo <= cameras.Keys && n == |counted|
        invariant forall c :: c in counted <==> c in cameras && c !in todo && cameras[c].pin == Some(p)
        decreases todo
      {
        var c :| c in todo;
        todo := todo - {c};
        if cameras[c].pin == Some(p) {
          n := n + 1;
          counted := counted + {c};
        }
      }
      assert counted == PinnedTo(Rows(), p);
    }

    method UpdatePolicy(p: PolicyId, w: Fields)
      requires p in policies
      modifies this`policies
      ensures Rows() == WithFields(old(Rows()), p, w)
    {
      policies := policies[p := policies[p].(fields := w)];
    }

    method CreatePolicy(p: PolicyId, name: string, w: Fields, origin: Origin)
      requires p !in policies
      modifies this`policies
      ensures Rows() == WithPolicy(old(Rows()), p, Policy(name, false, origin, w))
    {
      policies := policies[p := Policy(name, false, origin, w)];
    }

    method ReapPolicyIfOrphanDeviation(p: PolicyId)
      modifies this`policies
      ensures Rows() == Reap(old(Rows()), p)
    {
      if p in policies && !policies[p].isDefault && policies[p].origin == Deviation
         && (forall c :: c in cameras ==> cameras[c].pin != Some(p))
         && (forall g :: g in groups ==> groups[g] != Some(p)) {
        policies := policies - {p};
      }
    }

    /** The whole request. `freshId` is the id the database would give a new row. */
    method UpdateCameraPolicy(c: CameraId, r: Request, freshId: PolicyId) returns (o: Outcome)
      requires Valid(Rows()) && freshId !in policies
      modifies this
      ensures EditStep(old(Rows()), c, r, Rows(), o) && Valid(Rows())
      ensures !o.Failed? ==>
        && c in old(cameras) && c in cameras && EffectiveId(Rows(), c) == o.policy
        && Follows(r, old(EffectiveFields(Rows(), c)), EffectiveFields(Rows(), c))
    {
      ghost var before := Rows();
      if !WellFormed(r) {
        return Failed(InvalidValue);
      }
      if c !in cameras {
        return Failed(CameraNotFound);
      }
      if cameras[c].group.Some? {
        return Failed(CameraIsGrouped);
      }
      var effective := EffectivePolicy(c);
      var resolved := Resolve(policies[effective].fields, r);
      if resolved.Rejected? {
        return Failed(resolved.error);
      }
      o := WriteEdit(c, effective, resolved.fields, freshId);
      EditTakesEffect(before, c, r, Rows(), o);
      EditSetsWhatWasSent(before, c, r, Rows(), o);
    }

    /** The deviation edit itself, once the wanted fields are known. */
    method WriteEdit(c: CameraId, effective: PolicyId, w: Fields, freshId: PolicyId) returns (o: Outcome)
      requires Valid(Rows()) && freshId !in policies
      requires c in cameras && cameras[c].group.None? && effective == EffectiveId(Rows(), c)
      modifies this
      ensures Chosen(old(Rows()), c, w, o) && Rows() == After(old(Rows()), c, w, o)
    {
      var direct := cameras[c].pin;
      var matched := FindMatchingPolicy(w);
      if matched.Some? {
        if matched.value == effective {
          return Unchanged(effective);
        }
        SetCameraPolicy(c, matched.value);
        if direct.Some? {
          ReapPolicyIfOrphanDeviation(direct.value);
        }
        return Joined(matched.value);
      }
      if direct.Some? && !policies[direct.value].isDefault && policies[direct.value].origin == Deviation {
        var n := CountCamerasForPolicy(direct.value);
        SoleOwner(Rows(), c, direct.value);
        if n == 1 {
          UpdatePolicy(direct.value, w);
          return EditedInPlace(direct.value);
        }
      }
      var taken := set p | p in policies :: policies[p].name;
      var name := PolicyNames.MintDeviationName(taken, cameras[c].name);
      CreatePolicy(freshId, name, w, Deviation);
      SetCameraPolicy(c, freshId);
      if direct.Some? {
        ReapPolicyIfOrphanDeviation(direct.value);
      }
      return Minted(freshId, name);
    }
  }

  function PinnedTo(t: Tables, p: PolicyId): set<CameraId> {
    set c | c in t.cameras && t.cameras[c].pin == Some(p)
  }

  lemma SoleOwner(t: Tables, c: CameraId, p: PolicyId)
    requires c in t.cameras && t.cameras[c].pin == Some(p)
    ensures |PinnedTo(t, p)| == 1 <==> forall d :: d in t.cameras && t.cameras[d].pin == Some(p) ==> d == c
  {
    var owners := PinnedTo(t, p);
    assert c in owners;
    if forall d :: d in t.cameras && t.cameras[d].pin == Some(p) ==> d == c {
      assert owners == {c};
    }
    if |owners| == 1 {
      assert |owners - {c}| == 0;
      forall d | d in t.cameras && t.cameras[d].pin == Some(p)
        ensures d == c
      {
        assert d !in owners - {c};
      }
    }
  }
}
