/** `ExtensionManager.extend_resources`: extensions are merged into the attribute map pass by
    pass, each only once all extensions it requires have been processed. */
module Extensions {
  import opened Common

  /** An extension's alias, or the name of a resource or of an attribute. */
  datatype Name = Name(text: string)

  /** Attribute name to definition. */
  datatype Attrs = Attrs(defs: map<Name, string>)

  /** Resource name to attributes. */
  type AttrMap = map<Name, Attrs>

  /** An extension as the loop sees it: whether it has `get_extended_resources` and
      `update_attributes_map`, which extensions it requires (none if it does not say), and the
      resources it contributes, None if fetching them raises AttributeError. */
  datatype Ext = Ext(extends_: bool, updates: bool, required: set<Name>, resources: Option<AttrMap>)

  type Registry = map<Name, Ext>

  // ---------------------------------------------------------------- the least closed set

  ghost predicate Ready(exts: Registry, done: set<Name>, name: Name) {
    name in exts && exts[name].extends_ && exts[name].required <= done
  }

  ghost predicate Closed(exts: Registry, s: set<Name>) {
    forall name :: Ready(exts, s, name) ==> name in s
  }

  /** `s` is the least set that contains every extension all of whose requirements it contains. */
  ghost predicate LeastClosed(exts: Registry, s: set<Name>) {
    Closed(exts, s) && BelowAllClosed(exts, s)
  }

  ghost predicate BelowAllClosed(exts: Registry, s: set<Name>) {
    forall t: set<Name> :: Closed(exts, t) ==> s <= t
  }

  /** There is one such set, so the order in which the dictionary is walked does not matter. */
  lemma LeastClosedUnique(exts: Registry, s: set<Name>, t: set<Name>)
    requires LeastClosed(exts, s) && LeastClosed(exts, t)
    ensures s == t
  {
    assert s <= t && t <= s;
  }

  ghost function SetOf(log: seq<Name>): (s: set<Name>)
    ensures forall x :: x in s <==> x in log
  {
    set x | x in log
  }

  /** The extension may be processed right after those of `before`: it is none of them and they
      include all it requires. */
  ghost predicate MayFollow(exts: Registry, before: seq<Name>, name: Name) {
    Ready(exts, SetOf(before), name) && name !in before
  }

  /** Each extension of the log comes once and after everything it requires. */
  ghost predicate RequirementsFirst(exts: Registry, log: seq<Name>) {
    log == [] || (RequirementsFirst(exts, log[..|log| - 1]) && MayFollow(exts, log[..|log| - 1], log[|log| - 1]))
  }

  /** ... so it does at every position. */
  lemma {:induction false} RequirementsFirstAt(exts: Registry, log: seq<Name>, i: nat)
    requires RequirementsFirst(exts, log) && i < |log|
    ensures MayFollow(exts, log[..i], log[i])
  {
    if i < |log| - 1 {
      RequirementsFirstAt(exts, log[..|log| - 1], i);
      assert log[..|log| - 1][..i] == log[..i];
    }
  }

  lemma SetOfOneMore(log: seq<Name>, name: Name)
    ensures SetOf(log + [name]) == SetOf(log) + {name}
  {
  }

  /** Any order that respects requirements stays within every closed set. */
  lemma {:induction false} LogsStayBelow(exts: Registry, log: seq<Name>, t: set<Name>)
    requires RequirementsFirst(exts, log) && Closed(exts, t)
    ensures SetOf(log) <= t
  {
    if log != [] {
      var n := |log| - 1;
      LogsStayBelow(exts, log[..n], t);
      assert Ready(exts, t, log[n]);
      SetOfOneMore(log[..n], log[n]);
      assert log == log[..n] + [log[n]];
    }
  }

  // ---------------------------------------------------------------- merging

  /** The attributes of a resource, none if it is absent. */
  function AttrsOf(m: AttrMap, resource: Name): Attrs {
    if resource in m then m[resource] else Attrs(map[])
  }

  function Plus(a: Attrs, b: Attrs): Attrs { Attrs(a.defs + b.defs) }

  lemma PlusNone(a: Attrs)
    ensures Plus(a, Attrs(map[])) == a && Plus(Attrs(map[]), a) == a
  {
    assert a.defs + map[] == a.defs && map[] + a.defs == a.defs;
  }

  /** The attributes of each resource, those of `more` winning. */
  function Merged(m: AttrMap, more: AttrMap): AttrMap {
    map r | r in m.Keys + more.Keys :: Plus(AttrsOf(m, r), AttrsOf(more, r))
  }

  /** A resource that is absent or has no attributes yet is assigned, any other is updated. */
  function Absorb(m: AttrMap, resource: Name, attrs: Attrs): (r: AttrMap)
    ensures r == m[resource := Plus(AttrsOf(m, resource), attrs)]
  {
    PlusNone(attrs);
    if resource in m && m[resource].defs != map[] then m[resource := Plus(m[resource], attrs)] else m[resource := attrs]
  }

  /** Resource y has got what is its due once all contributed resources but `left` are merged. */
  ghost predicate MergedAt(m: AttrMap, more: AttrMap, left: set<Name>, r: AttrMap, y: Name) {
    && (y in r <==> y in m || (y in more && y !in left))
    && AttrsOf(r, y) == if y in more && y !in left then Plus(AttrsOf(m, y), more[y]) else AttrsOf(m, y)
  }

  /** How a map defines an attribute of a resource, if it does. */
  function Definition(m: AttrMap, resource: Name, x: Name): Option<string> {
    if resource in m && x in m[resource].defs then Some(m[resource].defs[x]) else None
  }

  function Either(a: Option<string>, b: Option<string>): Option<string> { if a.Some? then a else b }

  /** Attribute by attribute, the contribution's definition wins and the old one stays otherwise. */
  lemma MergedDefinition(m: AttrMap, more: AttrMap, resource: Name, x: Name)
    ensures Definition(Merged(m, more), resource, x)
            == Either(Definition(more, resource, x), Definition(m, resource, x))
    ensures resource in Merged(m, more) <==> resource in m || resource in more
  {
  }

  /** The loop over the contributed resources, in any order. */
  method Merge(m: AttrMap, more: AttrMap) returns (r: AttrMap)
    ensures r == Merged(m, more)
    ensures forall resource, x :: Definition(r, resource, x)
                                  == Either(Definition(more, resource, x), Definition(m, resource, x))
    ensures forall resource :: resource in r <==> resource in m || resource in more
  {
    r := m;
    var left := more.Keys;
    while left != {}
      invariant left <= more.Keys
      invariant forall y :: MergedAt(m, more, left, r, y)
      decreases left
    {
      var x :| x in left;
      assert MergedAt(m, more, left, r, x);
      ghost var before, rest := r, left;
      r := Absorb(r, x, more[x]);
      left := left - {x};
      forall y
        ensures MergedAt(m, more, left, r, y)
      {
        assert MergedAt(m, more, rest, before, y);
      }
    }
    MergedEverywhere(m, more, r);
    forall resource, x
      ensures Definition(r, resource, x) == Either(Definition(more, resource, x), Definition(m, resource, x))
    {
      MergedDefinition(m, more, resource, x);
    }
  }

  lemma MergedEverywhere(m: AttrMap, more: AttrMap, r: AttrMap)
    requires forall y :: MergedAt(m, more, {}, r, y)
    ensures r == Merged(m, more)
  {
    forall y: Name
      ensures y in r <==> y in m || y in more
      ensures y in r ==> r[y] == Plus(AttrsOf(m, y), AttrsOf(more, y))
    {
      assert MergedAt(m, more, {}, r, y);
      PlusNone(AttrsOf(m, y));
    }
  }

  /** Merging the extensions of the log one after the other. */
  function MergeAll(m: AttrMap, exts: Registry, log: seq<Name>): AttrMap
  {
    if log == [] then m
    else
      var n := |log| - 1;
      var before := MergeAll(m, exts, log[..n]);
      if log[n] in exts && exts[log[n]].resources.Some? then Merged(before, exts[log[n]].resources.value) else before
  }

  /** What an extension contributes to an attribute. */
  function Contribution(exts: Registry, name: Name, resource: Name, x: Name): Option<string> {
    if name in exts && exts[name].resources.Some? then Definition(exts[name].resources.value, resource, x) else None
  }

  /** Extension k of the log is the last one in it that contributes to the attribute. */
  ghost predicate LastContributor(exts: Registry, log: seq<Name>, k: nat, resource: Name, x: Name) {
    && k < |log| && Contribution(exts, log[k], resource, x).Some?
    && forall i :: k < i < |log| ==> Contribution(exts, log[i], resource, x).None?
  }

  /** `d` is the definition of the last contributor, or `old_` if nobody contributes. */
  ghost predicate DefinedByLast(old_: Option<string>, exts: Registry, log: seq<Name>, d: Option<string>,
                                resource: Name, x: Name)
  {
    && (forall k: nat :: LastContributor(exts, log, k, resource, x) ==> d == Contribution(exts, log[k], resource, x))
    && ((forall i :: 0 <= i < |log| ==> Contribution(exts, log[i], resource, x).None?) ==> d == old_)
  }

  lemma {:induction false} MergeAllDefinition(m: AttrMap, exts: Registry, log: seq<Name>, name: Name,
                                              resource: Name, x: Name)
    ensures Definition(MergeAll(m, exts, log + [name]), resource, x)
            == Either(Contribution(exts, name, resource, x), Definition(MergeAll(m, exts, log), resource, x))
  {
    assert (log + [name])[..|log|] == log;
    if name in exts && exts[name].resources.Some? {
      MergedDefinition(MergeAll(m, exts, log), exts[name].resources.value, resource, x);
    }
  }

  lemma LastStep(old_: Option<string>, exts: Registry, log: seq<Name>, name: Name, d: Option<string>,
                 resource: Name, x: Name)
    requires DefinedByLast(old_, exts, log, d, resource, x)
    ensures DefinedByLast(old_, exts, log + [name], Either(Contribution(exts, name, resource, x), d), resource, x)
  {
    var more, n := log + [name], |log|;
    assert more[n] == name && forall i :: 0 <= i < n ==> more[i] == log[i];
    forall k: nat | LastContributor(exts, more, k, resource, x)
      ensures Either(Contribution(exts, name, resource, x), d) == Contribution(exts, more[k], resource, x)
    {
      if k < n {
        assert Contribution(exts, more[n], resource, x).None?;
        assert LastContributor(exts, log, k, resource, x);
      }
    }
  }

  lemma {:induction false} LastContributorDefines(m: AttrMap, exts: Registry, log: seq<Name>, resource: Name, x: Name)
    ensures DefinedByLast(Definition(m, resource, x), exts, log, Definition(MergeAll(m, exts, log), resource, x),
                          resource, x)
    decreases |log|
  {
    if log != [] {
      var n := |log| - 1;
      var front := log[..n];
      LastContributorDefines(m, exts, front, resource, x);
      MergeAllDefinition(m, exts, front, log[n], resource, x);
      LastStep(Definition(m, resource, x), exts, front, log[n], Definition(MergeAll(m, exts, front), resource, x),
               resource, x);
      assert front + [log[n]] == log;
    }
  }

  // ---------------------------------------------------------------- the loops

  /** The loops' variables: `exts_to_process`, `processed_exts`, the order in which extensions
      were processed, the attribute map and `update_exts`. */
  datatype Progress = Progress(todo: set<Name>, done: set<Name>, log: seq<Name>, attrs: AttrMap, updates: seq<Name>)

  ghost predicate Inv(exts: Registry, m: AttrMap, p: Progress) {
    && p.todo <= exts.Keys && p.done !! p.todo
    && p.done == SetOf(p.log) && RequirementsFirst(exts, p.log)
    && (forall name :: name in exts && exts[name].extends_ ==> name in p.todo || name in p.done)
    && p.attrs == MergeAll(m, exts, p.log)
    && (forall name :: name in p.updates ==> HasUpdate(exts, name))
  }

  ghost predicate HasUpdate(exts: Registry, name: Name) {
    name in exts && exts[name].extends_ && exts[name].updates
  }

  /** The body of the inner loop. */
  method Visit(exts: Registry, m: AttrMap, p: Progress, name: Name) returns (q: Progress)
    requires Inv(exts, m, p) && name in p.todo
    ensures Inv(exts, m, q)
    ensures q.updates == if HasUpdate(exts, name) then p.updates + [name] else p.updates
    ensures q.log == if Ready(exts, p.done, name) then p.log + [name] else p.log
    ensures q.done == if Ready(exts, p.done, name) then p.done + {name} else p.done
    ensures q.todo == if Ready(exts, p.done, name) || !exts[name].extends_ then p.todo - {name} else p.todo
  {
    var ext := exts[name];
    if !ext.extends_ {
      return p.(todo := p.todo - {name});
    }
    q := p;
    if ext.updates {
      q := q.(updates := q.updates + [name]);
    }
    if !(ext.required <= q.done) {
      return q;
    }
    MergeAllOneMore(m, exts, p.log, name);
    if ext.resources.Some? {
      var merged := Merge(q.attrs, ext.resources.value);
      q := q.(attrs := merged);
    }
    InvReady(exts, m, p, name, q.attrs, q.updates);
    q := q.(log := q.log + [name], done := q.done + {name}, todo := q.todo - {name});
  }

  lemma {:induction false} MergeAllOneMore(m: AttrMap, exts: Registry, log: seq<Name>, name: Name)
    requires name in exts
    ensures MergeAll(m, exts, log + [name])
            == if exts[name].resources.Some? then Merged(MergeAll(m, exts, log), exts[name].resources.value)
               else MergeAll(m, exts, log)
  {
    assert (log + [name])[..|log|] == log;
  }

  /** Processing an extension whose requirements are met. */
  lemma {:induction false} InvReady(exts: Registry, m: AttrMap, p: Progress, name: Name,
                                    attrs: AttrMap, updates: seq<Name>)
    requires Inv(exts, m, p) && name in p.todo && Ready(exts, p.done, name)
    requires attrs == MergeAll(m, exts, p.log + [name])
    requires forall x :: x in updates ==> HasUpdate(exts, x)
    ensures Inv(exts, m, Progress(p.todo - {name}, p.done + {name}, p.log + [name], attrs, updates))
  {
    SetOfOneMore(p.log, name);
    assert (p.log + [name])[..|p.log|] == p.log;
    assert RequirementsFirst(exts, p.log + [name]);
  }

  /** One iteration of the outer loop: either some extension was processed, or every one that is
      left is an extension still waiting for its requirements. */
  method Pass(exts: Registry, order: seq<Name>, m: AttrMap, p: Progress) returns (q: Progress)
    requires SetOf(order) == exts.Keys && Distinct(order) && Inv(exts, m, p)
    ensures Inv(exts, m, q)
    ensures |q.log| >= |p.log| && (|q.log| > |p.log| ==> q.todo < p.todo)
    ensures |q.log| == |p.log| ==> forall name :: name in q.todo ==> !(exts[name].required <= q.done)
    ensures forall name :: name in q.todo ==> exts[name].extends_
    ensures forall name :: name in p.updates ==> name in q.updates
    ensures forall name :: name in p.todo && HasUpdate(exts, name) ==> name in q.updates
  {
    q := p;
    for i := 0 to |order|
      invariant Inv(exts, m, q)
      invariant q.todo <= p.todo && |q.log| >= |p.log|
      invariant |q.log| > |p.log| ==> q.todo < p.todo
      invariant |q.log| == |p.log| ==> q.done == p.done
      invariant forall k :: i <= k < |order| && order[k] in p.todo ==> order[k] in q.todo
      invariant forall name :: name in p.updates ==> name in q.updates
      invariant forall k :: 0 <= k < i ==> Seen(exts, p, q, order[k])
    {
      if order[i] in q.todo {
        q := Visit(exts, m, q, order[i]);
      }
    }
    forall name | name in p.todo
      ensures Seen(exts, p, q, name)
    {
      assert name in SetOf(order);
    }
  }

  /** What a pass from p has settled about an extension it has come by. */
  ghost predicate Seen(exts: Registry, p: Progress, q: Progress, name: Name) {
    && (name in q.todo ==> name in exts && exts[name].extends_)
    && (name in q.todo && |q.log| == |p.log| ==> !(exts[name].required <= q.done))
    && (name in p.todo && HasUpdate(exts, name) ==> name in q.updates)
  }

  /** `order` is the dictionary's order. On return `p.log` lists the processed extensions as they
      were merged, `p.todo` what was impossible to process, `p.updates` the extensions whose
      attribute-map update is to be called. */
  method ExtendResources(exts: Registry, order: seq<Name>, m: AttrMap) returns (p: Progress)
    requires SetOf(order) == exts.Keys && Distinct(order)
    ensures LeastClosed(exts, SetOf(p.log))
    ensures RequirementsFirst(exts, p.log)
    ensures p.attrs == MergeAll(m, exts, p.log)
    ensures forall resource, x ::
              DefinedByLast(Definition(m, resource, x), exts, p.log, Definition(p.attrs, resource, x), resource, x)
    ensures forall name :: name in p.todo <==> name in exts && exts[name].extends_ && name !in SetOf(p.log)
    ensures forall name :: name in p.updates <==> HasUpdate(exts, name)
  {
    p := Progress(exts.Keys, {}, [], m, []);
    while p.todo != {}
      invariant Inv(exts, m, p)
      invariant p.todo == exts.Keys
                || ((forall name :: name in p.todo ==> exts[name].extends_)
                    && (forall name :: HasUpdate(exts, name) ==> name in p.updates))
      decreases p.todo
    {
      var count := |p.log|;
      p := Pass(exts, order, m, p);
      if |p.log| == count {
        break;
      }
    }
    assert Closed(exts, SetOf(p.log)) by {
      assert SetOf(p.log) == p.done;
    }
    forall t: set<Name> | Closed(exts, t)
      ensures SetOf(p.log) <= t
    {
      LogsStayBelow(exts, p.log, t);
    }
    forall resource, x
      ensures DefinedByLast(Definition(m, resource, x), exts, p.log, Definition(p.attrs, resource, x), resource, x)
    {
      LastContributorDefines(m, exts, p.log, resource, x);
    }
  }

  // ---------------------------------------------------------------- what follows

  /** Requirement cycles: if every member of a set requires some other member of it, none of
      them is ever processed. */
  lemma CyclesAreStuck(exts: Registry, cycle: set<Name>, least: set<Name>)
    requires LeastClosed(exts, least)
    requires forall x :: x in cycle && x in exts ==> exts[x].required * cycle != {}
    ensures cycle * least == {}
  {
    var rest := least - cycle;
    assert Closed(exts, rest) by {
      forall name | Ready(exts, rest, name)
        ensures name in rest
      {
        assert Ready(exts, least, name);
      }
    }
    assert least <= rest;
  }
}
