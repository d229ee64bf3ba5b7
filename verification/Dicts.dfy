/** `json_merge_patch` and `deep_update` as they run: on dictionaries that hold other
    dictionaries and are changed in place. Patches are only read. */
module Dicts {
  import opened MergePatch

  /** A member: a JSON value that is no object, or a dictionary of its own. */
  datatype Value = Plain(json: Json) | Nested(dict: Dict)

  class Dict {
    var members: map<Key, Value>
    /** The JSON object that the dictionary stands for. */
    ghost var Contents: Members
    /** This dictionary and all below it; they form a tree. */
    ghost var Repr: set<object>

    ghost predicate Valid()
      reads this, Repr
      ensures Valid() ==> this in Repr
      decreases Repr
    {
      && this in Repr
      && Contents.Keys == members.Keys
      && (forall k :: k in members && members[k].Plain? ==> Contents[k] == members[k].json && !members[k].json.Obj?)
      && (forall k :: k in members && members[k].Nested? ==>
            && members[k].dict in Repr && members[k].dict.Repr <= Repr && this !in members[k].dict.Repr
            && members[k].dict.Valid() && Contents[k] == Obj(members[k].dict.Contents))
      && (forall k, l :: k in members && l in members && k != l && members[k].Nested? && members[l].Nested? ==>
            members[k].dict.Repr !! members[l].dict.Repr)
    }

    constructor ()
      ensures Valid() && fresh(Repr) && Contents == map[]
    {
      members, Contents := map[], map[];
      Repr := {this};
    }

    method Delete(key: Key)
      requires Valid()
      modifies this
      ensures Valid() && Repr == old(Repr) && Contents == old(Contents) - {key}
    {
      members := members - {key};
      Contents := Contents - {key};
    }

    method Assign(key: Key, json: Json)
      requires Valid() && !json.Obj?
      modifies this
      ensures Valid() && Repr == old(Repr) && Contents == old(Contents)[key := json]
    {
      members := members[key := Plain(json)];
      Contents := Contents[key := json];
    }

    /** A dictionary from elsewhere becomes a member. */
    method Adopt(key: Key, d: Dict)
      requires Valid() && d.Valid() && d.Repr !! Repr
      modifies this
      ensures Valid() && Repr == old(Repr) + d.Repr
      ensures Contents == old(Contents)[key := Obj(d.Contents)]
    {
      members := members[key := Nested(d)];
      Contents := Contents[key := Obj(d.Contents)];
      Repr := Repr + d.Repr;
    }

    /** One iteration of the loop of `json_merge_patch`. */
    method MergeMember(key: Key, value: Json)
      requires Valid()
      modifies Repr
      ensures Valid() && fresh(Repr - old(Repr))
      ensures Contents == if value.Null? then old(Contents) - {key}
                          else old(Contents)[key := Patched(Lookup(old(Contents), key), value)]
      decreases value, 1
    {
      if value.Null? {
        Delete(key);
      } else if !value.Obj? {
        Assign(key, value);
      } else if key in members && members[key].Nested? {
        MergeChild(key, value);
      } else {
        var d := new Dict();
        d.Merge(value);
        Adopt(key, d);
      }
    }

    /** Merging into a dictionary that is already a member. */
    method MergeChild(key: Key, value: Json)
      requires Valid() && value.Obj? && key in members && members[key].Nested?
      modifies Repr
      ensures Valid() && fresh(Repr - old(Repr))
      ensures Contents == old(Contents)[key := Patched(Lookup(old(Contents), key), value)]
      decreases value, 0, 1
    {
      var d := members[key].dict;
      d.Merge(value);
      Reattach(key, d);
    }

    /** After a member dictionary, and nothing else, has changed validly. */
    ghost method Reattach(key: Key, d: Dict)
      requires this in Repr && Contents.Keys == members.Keys && key in members && members[key] == Nested(d)
      requires d.Valid() && this !in d.Repr
      requires OthersValid(key, d)
      modifies this`Contents, this`Repr
      ensures Valid() && Repr == old(Repr) + d.Repr && Contents == old(Contents)[key := Obj(d.Contents)]
    {
      Contents := Contents[key := Obj(d.Contents)];
      Repr := Repr + d.Repr;
      assert d.Valid() && d in Repr;
      forall k | k in members && members[k].Nested? && k != key
        ensures members[k].dict.Valid() && Contents[k] == Obj(members[k].dict.Contents)
      {
      }
    }

    /** What `Valid` says about the members other than `key`, and that they share nothing with `d`. */
    ghost predicate OthersValid(key: Key, d: Dict)
      requires Contents.Keys == members.Keys
      reads this, Repr, d
    {
      && (forall k :: k in members && k != key && members[k].Plain? ==>
            Contents[k] == members[k].json && !members[k].json.Obj?)
      && (forall k :: k in members && k != key && members[k].Nested? ==>
            && members[k].dict in Repr && members[k].dict.Repr <= Repr && this !in members[k].dict.Repr
            && members[k].dict.Repr !! d.Repr
            && members[k].dict.Valid() && Contents[k] == Obj(members[k].dict.Contents))
      && (forall k, l :: k in members && l in members && k != l && k != key && l != key
                         && members[k].Nested? && members[l].Nested? ==>
            members[k].dict.Repr !! members[l].dict.Repr)
    }

    /** The loop over the members of an object patch, in any order. */
    method Merge(patch: Json)
      requires Valid() && patch.Obj?
      modifies Repr
      ensures Valid() && fresh(Repr - old(Repr))
      ensures Contents == PatchedMembers(old(Contents), patch)
      decreases patch, 0, 0
    {
      var left := patch.members.Keys;
      PartOfNothing(Contents, patch);
      while left != {}
        invariant left <= patch.members.Keys
        invariant Valid() && fresh(Repr - old(Repr))
        invariant Contents == PatchedMembers(old(Contents), Part(patch, left))
        decreases left
      {
        var key :| key in left;
        PartStep(old(Contents), patch, left, key);
        MergeMember(key, patch.members[key]);
        left := left - {key};
      }
      assert Part(patch, {}) == patch;
    }

    /** One iteration of the loop of `deep_update`. A new object value is copied: the original
        shares it with the argument, but does not change it afterwards. */
    method UpdateMember(key: Key, value: Json)
      requires Valid()
      modifies Repr
      ensures Valid() && fresh(Repr - old(Repr))
      ensures Contents == old(Contents)[key := UpdatedMember(old(Contents), key, value)]
      decreases value, 1
    {
      if value.Obj? {
        if key in members && members[key].Nested? {
          UpdateChild(key, value);
        } else {
          CopyChild(key, value);
        }
      } else {
        Assign(key, value);
      }
    }

    method CopyChild(key: Key, value: Json)
      requires Valid() && value.Obj? && !(key in members && members[key].Nested?)
      modifies Repr
      ensures Valid() && fresh(Repr - old(Repr))
      ensures Contents == old(Contents)[key := UpdatedMember(old(Contents), key, value)]
      decreases value, 0, 1
    {
      var d := new Dict();
      d.Update(value);
      assert Updated(map[], value) == value.members;
      Adopt(key, d);
    }

    method UpdateChild(key: Key, value: Json)
      requires Valid() && value.Obj? && key in members && members[key].Nested?
      modifies Repr
      ensures Valid() && fresh(Repr - old(Repr))
      ensures Contents == old(Contents)[key := UpdatedMember(old(Contents), key, value)]
      decreases value, 0, 1
    {
      var d := members[key].dict;
      d.Update(value);
      Reattach(key, d);
    }

    method Update(new_: Json)
      requires Valid() && new_.Obj?
      modifies Repr
      ensures Valid() && fresh(Repr - old(Repr))
      ensures Contents == Updated(old(Contents), new_)
      decreases new_, 0, 0
    {
      var left := new_.members.Keys;
      assert Updated(Contents, Part(new_, left)) == Contents;
      while left != {}
        invariant left <= new_.members.Keys
        invariant Valid() && fresh(Repr - old(Repr))
        invariant Contents == Updated(old(Contents), Part(new_, left))
        decreases left
      {
        var key :| key in left;
        UpdateStep(old(Contents), new_, left, key);
        UpdateMember(key, new_.members[key]);
        left := left - {key};
      }
      assert Part(new_, {}) == new_;
    }
  }

  /** What a value stands for. */
  ghost function JsonOf(v: Value): Json
    reads if v.Nested? then {v.dict} else {}
  {
    if v.Plain? then v.json else Obj(v.dict.Contents)
  }

  /** `json_merge_patch`: MergePatch of RFC 7396, computed in place. If target and patch are
      objects the result is the target itself, changed; otherwise the target is left alone. */
  method JsonMergePatch(target: Value, patch: Json) returns (r: Value)
    requires target.Nested? ==> target.dict.Valid()
    requires target.Plain? ==> !target.json.Obj?
    modifies if target.Nested? && patch.Obj? then target.dict.Repr else {}
    ensures r.Nested? ==> r.dict.Valid()
    ensures JsonOf(r) == Patched(old(JsonOf(target)), patch)
    ensures target.Nested? && patch.Obj? ==> r == target
  {
    if patch.Obj? {
      var dict;
      if target.Nested? {
        dict := target.dict;
      } else {
        dict := new Dict();
      }
      dict.Merge(patch);
      return Nested(dict);
    }
    return Plain(patch);
  }

  ghost function UpdatedMember(o: Members, key: Key, value: Json): Json {
    if value.Obj? && key in o && o[key].Obj? then Obj(Updated(o[key].members, value)) else value
  }

  lemma {:induction false} UpdateStep(o: Members, new_: Json, left: set<Key>, key: Key)
    requires new_.Obj? && key in left && left <= new_.members.Keys
    ensures var r := Updated(o, Part(new_, left));
            && (key in r <==> key in o) && Lookup(r, key) == Lookup(o, key)
            && Updated(o, Part(new_, left - {key})) == r[key := UpdatedMember(r, key, new_.members[key])]
  {
    var a, b := Part(new_, left), Part(new_, left - {key});
    assert b.members == a.members[key := new_.members[key]];
  }

  /** The patch without the members still to come. */
  ghost function Part(patch: Json, left: set<Key>): Json
    requires patch.Obj?
  {
    Obj(patch.members - left)
  }

  lemma {:induction false} PartOfNothing(t: Members, patch: Json)
    requires patch.Obj?
    ensures PatchedMembers(t, Part(patch, patch.members.Keys)) == t
  {
    assert patch.members - patch.members.Keys == map[];
  }

  /** Handling one more member of the patch. */
  lemma {:induction false} PartStep(t: Members, patch: Json, left: set<Key>, key: Key)
    requires patch.Obj? && key in left && left <= patch.members.Keys
    ensures var r := PatchedMembers(t, Part(patch, left));
            var v := patch.members[key];
            && Lookup(r, key) == Lookup(t, key)
            && PatchedMembers(t, Part(patch, left - {key}))
               == if v.Null? then r - {key} else r[key := Patched(Lookup(t, key), v)]
  {
    var a, b := Part(patch, left), Part(patch, left - {key});
    assert b.members == a.members[key := patch.members[key]];
  }
}
