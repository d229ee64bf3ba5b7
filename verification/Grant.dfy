/** Checking an NFVO's grant response against the request: `_grant` compares list lengths, then
    `_check_res_add_remove_rsc` looks up every requested id among the granted ones. */
module Grant {
  import opened Common

  type Id = string

  /** The three resource lists of a request, and of a response; a request entry is known by its
      `id`, a response entry by its `resource_definition_id`. */
  datatype Lists = Lists(add: seq<Id>, remove: seq<Id>, update: seq<Id>)

  datatype Which = Add | Remove | Update

  datatype Verdict = Accepted | ValidationError(which: Which)

  ghost predicate Included(requested: seq<Id>, granted: seq<Id>) {
    forall i :: 0 <= i < |requested| ==> requested[i] in granted
  }

  /** What is checked of one list. */
  ghost predicate Covers(requested: seq<Id>, granted: seq<Id>) {
    |requested| == |granted| && Included(requested, granted)
  }

  ghost predicate LengthsAgree(request: Lists, grant: Lists) {
    |request.add| == |grant.add| && |request.remove| == |grant.remove| && |request.update| == |grant.update|
  }

  ghost predicate Covered(request: Lists, grant: Lists) {
    && Covers(request.add, grant.add)
    && Covers(request.remove, grant.remove)
    && Covers(request.update, grant.update)
  }

  // ---------------------------------------------------------------- the loops

  /** One of the three nested loops of `_check_res_add_remove_rsc`. */
  method CheckMembers(requested: seq<Id>, granted: seq<Id>) returns (ok: bool)
    ensures ok <==> Included(requested, granted)
  {
    for i := 0 to |requested|
      invariant forall k :: 0 <= k < i ==> requested[k] in granted
    {
      var match_ := false;
      for j := 0 to |granted|
        invariant !match_
        invariant requested[i] !in granted[..j]
      {
        if requested[i] == granted[j] {
          match_ := true;
          break;
        }
      }
      if !match_ {
        assert granted[..|granted|] == granted;
        return false;
      }
    }
    return true;
  }

  /** `_grant` after the response is parsed: lengths of all three lists first, members after.
      A refusal names the first list that fails, lengths before members. */
  method Check(request: Lists, grant: Lists) returns (v: Verdict)
    ensures v.Accepted? <==> Covered(request, grant)
    ensures v == ValidationError(Add)
            <==> |request.add| != |grant.add| || (LengthsAgree(request, grant) && !Included(request.add, grant.add))
    ensures v == ValidationError(Remove)
            <==> |request.add| == |grant.add|
                 && (|request.remove| != |grant.remove|
                     || (LengthsAgree(request, grant) && Included(request.add, grant.add)
                         && !Included(request.remove, grant.remove)))
  {
    if |request.add| != |grant.add| {
      return ValidationError(Add);
    }
    if |request.remove| != |grant.remove| {
      return ValidationError(Remove);
    }
    if |request.update| != |grant.update| {
      return ValidationError(Update);
    }
    var ok := CheckMembers(request.add, grant.add);
    if !ok {
      return ValidationError(Add);
    }
    ok := CheckMembers(request.remove, grant.remove);
    if !ok {
      return ValidationError(Remove);
    }
    ok := CheckMembers(request.update, grant.update);
    if !ok {
      return ValidationError(Update);
    }
    return Accepted;
  }

  // ---------------------------------------------------------------- what acceptance means

  /** Removing one occurrence of `x` from `s`. */
  ghost function Without(s: seq<Id>, x: Id): (r: seq<Id>)
    requires x in s
    ensures |r| == |s| - 1
    ensures multiset(s) == multiset(r) + multiset{x}
  {
    var k :| 0 <= k < |s| && s[k] == x;
    assert s == s[..k] + [s[k]] + s[k + 1..];
    s[..k] + s[k + 1..]
  }

  /** Pigeonhole: equal lengths, distinct requested ids and one-way membership give equality
      of the two lists as multisets. */
  lemma {:induction false} Pigeonhole(requested: seq<Id>, granted: seq<Id>)
    requires Distinct(requested) && Covers(requested, granted)
    ensures multiset(granted) == multiset(requested)
    decreases |requested|
  {
    if requested != [] {
      var last := |requested| - 1;
      var x, front := requested[last], requested[..last];
      var rest := Without(granted, x);
      forall i | 0 <= i < |front|
        ensures front[i] in rest
      {
        assert front[i] != x && front[i] in multiset(granted);
        assert front[i] in multiset(rest);
      }
      Pigeonhole(front, rest);
      assert requested == front + [x];
    }
  }

  lemma SameIdsCover(requested: seq<Id>, granted: seq<Id>)
    requires multiset(granted) == multiset(requested)
    ensures Covers(requested, granted)
  {
    assert |multiset(granted)| == |granted| && |multiset(requested)| == |requested|;
    forall i | 0 <= i < |requested|
      ensures requested[i] in granted
    {
      assert requested[i] in multiset(requested);
    }
  }

  /** An id longer than any of these. */
  ghost function ForeignTo(ids: seq<Id>): (r: Id)
    ensures |r| >= 1 && forall i :: 0 <= i < |ids| ==> |ids[i]| < |r|
    ensures r !in ids
  {
    if ids == [] then "'" else ForeignTo(ids[..|ids| - 1]) + ids[|ids| - 1]
  }

  /** With two equal requested ids the check is not enough: one of the copies can be answered
      by a grant for something that was never asked for. */
  lemma DuplicateLetsForeignIdIn(requested: seq<Id>, j: nat, k: nat) returns (granted: seq<Id>)
    requires j < k < |requested| && requested[j] == requested[k]
    ensures Covers(requested, granted) && multiset(granted) != multiset(requested)
    ensures exists g :: g in granted && g !in requested
  {
    var x := requested[k];
    var foreign := ForeignTo(requested);
    granted := requested[k := foreign];
    assert granted[k] == foreign;
    forall i | 0 <= i < |requested|
      ensures requested[i] in granted
    {
      assert requested[i] == granted[if i == k then j else i];
    }
    assert foreign in multiset(granted) && foreign !in multiset(requested);
  }

  /** The lookup pins a granted list down to the requested ids exactly when those are pairwise
      distinct. */
  lemma DistinctIsExact(requested: seq<Id>)
    ensures Distinct(requested)
            <==> forall granted: seq<Id> :: Covers(requested, granted) ==> multiset(granted) == multiset(requested)
  {
    if Distinct(requested) {
      forall granted: seq<Id> | Covers(requested, granted)
        ensures multiset(granted) == multiset(requested)
      {
        Pigeonhole(requested, granted);
      }
    } else {
      var j, k :| 0 <= j < k < |requested| && requested[j] == requested[k];
      var granted := DuplicateLetsForeignIdIn(requested, j, k);
    }
  }

  /** A grant for pairwise distinct ids is accepted iff its add, remove and update ids are the
      requested ones, counted with multiplicity. */
  lemma AcceptedIffSameIds(request: Lists, grant: Lists)
    requires Distinct(request.add) && Distinct(request.remove) && Distinct(request.update)
    ensures Covered(request, grant)
            <==> && multiset(grant.add) == multiset(request.add)
                 && multiset(grant.remove) == multiset(request.remove)
                 && multiset(grant.update) == multiset(request.update)
  {
    if Covered(request, grant) {
      Pigeonhole(request.add, grant.add);
      Pigeonhole(request.remove, grant.remove);
      Pigeonhole(request.update, grant.update);
    } else if && multiset(grant.add) == multiset(request.add)
              && multiset(grant.remove) == multiset(request.remove)
              && multiset(grant.update) == multiset(request.update) {
      SameIdsCover(request.add, grant.add);
      SameIdsCover(request.remove, grant.remove);
      SameIdsCover(request.update, grant.update);
    }
  }
}
