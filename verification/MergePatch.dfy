/** What JSON merge patch (RFC 7396) and the deep update of dictionaries compute, on values. */
module MergePatch {
  import opened Common

  /** A member name. */
  datatype Key = Key(name: string)

  datatype Json =
    | Null
    | Bool(b: bool)
    | Num(n: int)
    | Str(s: string)
    | Arr(items: seq<Json>)
    | Obj(members: map<Key, Json>)

  type Members = map<Key, Json>

  function MembersOf(j: Json): Members { if j.Obj? then j.members else map[] }

  function Lookup(m: Members, key: Key): Json { if key in m then m[key] else Null }

  // ---------------------------------------------------------------- what they compute

  /** MergePatch of section 2 of RFC 7396, member by member and so independent of any order. */
  function Patched(target: Json, patch: Json): Json
    decreases patch
  {
    if patch.Obj? then Obj(PatchedMembers(MembersOf(target), patch)) else patch
  }

  function PatchedMembers(t: Members, patch: Json): Members
    requires patch.Obj?
    decreases patch, 0
  {
    var p := patch.members;
    map k | k in t.Keys + p.Keys && !(k in p && p[k].Null?) ::
      if k in p then Patched(Lookup(t, k), p[k]) else t[k]
  }

  /** A deep update: objects on both sides are merged, everything else is replaced. */
  function Updated(o: Members, new_: Json): Members
    requires new_.Obj?
    decreases new_
  {
    var n := new_.members;
    map k | k in o.Keys + n.Keys ::
      if k !in n then o[k]
      else if n[k].Obj? && k in o && o[k].Obj? then Obj(Updated(o[k].members, n[k]))
      else n[k]
  }

  /** No object in it, arrays aside, has a null member. */
  ghost predicate NoNulls(j: Json) {
    j.Obj? ==> forall k :: k in j.members ==> !j.members[k].Null? && NoNulls(j.members[k])
  }

  // ---------------------------------------------------------------- laws

  /** Applying the same patch again changes nothing. */
  lemma {:induction false} PatchIdempotent(t: Json, p: Json)
    ensures Patched(Patched(t, p), p) == Patched(t, p)
    decreases p
  {
    if p.Obj? {
      var once := PatchedMembers(MembersOf(t), p);
      var twice := PatchedMembers(once, p);
      assert once.Keys == twice.Keys;
      forall k | k in once
        ensures twice[k] == once[k]
      {
        if k in p.members { PatchIdempotent(Lookup(MembersOf(t), k), p.members[k]); }
      }
    }
  }

  /** Patching something that is no object reproduces the patch exactly if it has no nulls. */
  lemma {:induction false} PatchOfNonObject(t: Json, p: Json)
    requires !t.Obj?
    ensures Patched(t, p) == p <==> NoNulls(p)
    ensures NoNulls(Patched(t, p))
    decreases p
  {
    if p.Obj? {
      var r := PatchedMembers(map[], p);
      assert r.Keys == set k | k in p.members && !p.members[k].Null?;
      forall k | k in p.members
        ensures Patched(Null, p.members[k]) == p.members[k] <==> NoNulls(p.members[k])
        ensures NoNulls(Patched(Null, p.members[k]))
      {
        PatchOfNonObject(Null, p.members[k]);
      }
      forall k | k in r
        ensures !r[k].Null? && NoNulls(r[k])
      {
        assert r[k] == Patched(Null, p.members[k]);
      }
      if NoNulls(p) {
        assert r == p.members;
      }
      if r == p.members {
        forall k | k in p.members
          ensures !p.members[k].Null? && NoNulls(p.members[k])
        {
          assert k in r;
        }
      }
    }
  }

  /** On objects the merge patch and the deep update agree exactly when the patch has no null
      members. */
  lemma {:induction false} PatchIsUpdateIff(o: Members, p: Json)
    requires p.Obj?
    ensures PatchedMembers(o, p) == Updated(o, p) <==> NoNulls(p)
    decreases p
  {
    var a, b := PatchedMembers(o, p), Updated(o, p);
    forall k | k in p.members && !p.members[k].Null?
      ensures a[k] == b[k] <==> NoNulls(p.members[k])
    {
      MemberAgreesIff(o, p, k);
    }
    if NoNulls(p) {
      assert a.Keys == b.Keys;
    }
    if a == b {
      forall k | k in p.members
        ensures !p.members[k].Null? && NoNulls(p.members[k])
      {
        assert k in b && k in a;
      }
    }
  }

  lemma {:induction false} MemberAgreesIff(o: Members, p: Json, k: Key)
    requires p.Obj? && k in p.members && !p.members[k].Null?
    ensures PatchedMembers(o, p)[k] == Updated(o, p)[k] <==> NoNulls(p.members[k])
    decreases p, 0
  {
    var v := p.members[k];
    if v.Obj? && k in o && o[k].Obj? {
      PatchIsUpdateIff(o[k].members, v);
    } else {
      assert PatchedMembers(o, p)[k] == Patched(Lookup(o, k), v);
      assert Updated(o, p)[k] == v;
      if v.Obj? { PatchOfNonObject(Lookup(o, k), v); }
    }
  }

  // ---------------------------------------------------------------- along a path

  /** The value at the end of a path of member names. */
  function At(j: Json, path: seq<Key>): (r: Option<Json>)
    decreases |path|
  {
    if path == [] then Some(j)
    else if j.Obj? && path[0] in j.members then At(j.members[path[0]], path[1..])
    else None
  }

  /** The patch has objects along the path up to a point where it lacks the next name. */
  ghost predicate Untouched(p: Json, path: seq<Key>)
    decreases |path|
  {
    p.Obj? && path != [] && (path[0] !in p.members || Untouched(p.members[path[0]], path[1..]))
  }

  /** What a merge patch does at any depth: a null removes, any other value that is no object is put
      in place, and what the patch does not lead to stays as it was. */
  lemma {:induction false} PatchAlongPath(t: Json, p: Json, path: seq<Key>)
    ensures At(p, path) == Some(Null) && path != [] ==> At(Patched(t, p), path) == None
    ensures At(p, path).Some? && !At(p, path).value.Null? && !At(p, path).value.Obj? ==>
              At(Patched(t, p), path) == At(p, path)
    ensures Untouched(p, path) ==> At(Patched(t, p), path) == At(t, path)
    decreases |path|
  {
    if path != [] && p.Obj? {
      var k, rest := path[0], path[1..];
      var before, after := MembersOf(t), PatchedMembers(MembersOf(t), p);
      assert Patched(t, p) == Obj(after);
      if k in p.members {
        PatchAlongPath(Lookup(before, k), p.members[k], rest);
        assert At(p, path) == At(p.members[k], rest);
        if p.members[k].Null? {
          assert k !in after && !Untouched(p.members[k], rest) && At(Obj(after), path) == None;
        } else {
          assert after[k] == Patched(Lookup(before, k), p.members[k]);
          assert rest != [] ==> At(Lookup(before, k), rest) == At(t, path);
        }
      } else {
        assert k in after <==> k in before;
      }
    }
  }

  /** The same for a deep update, which knows no removal: a null is put in place as well. */
  lemma {:induction false} UpdateAlongPath(o: Members, n: Json, path: seq<Key>)
    requires n.Obj?
    ensures At(n, path).Some? && !At(n, path).value.Obj? ==> At(Obj(Updated(o, n)), path) == At(n, path)
    ensures Untouched(n, path) ==> At(Obj(Updated(o, n)), path) == At(Obj(o), path)
    decreases |path|
  {
    if path != [] {
      var k, rest := path[0], path[1..];
      var u := Updated(o, n);
      if k !in n.members {
        assert k in u <==> k in o;
      } else if n.members[k].Obj? && k in o && o[k].Obj? {
        UpdateAlongPath(o[k].members, n.members[k], rest);
        assert u[k] == Obj(Updated(o[k].members, n.members[k])) && Obj(o[k].members) == o[k];
      } else {
        assert u[k] == n.members[k];
        if Untouched(n.members[k], rest) {
          UntouchedLeadsNowhere(n.members[k], rest);
          assert k in o ==> At(o[k], rest) == None;
        }
      }
    }
  }

  lemma {:induction false} UntouchedLeadsNowhere(p: Json, path: seq<Key>)
    requires Untouched(p, path)
    ensures At(p, path) == None
    decreases |path|
  {
    if path[0] in p.members { UntouchedLeadsNowhere(p.members[path[0]], path[1..]); }
  }
}
