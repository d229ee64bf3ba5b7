/** Re-pairing VNFCs for a full heal: `_init_add_resources` walks over the VNFCs of the rebuilt
    instance, gives each the first unused VNFC of the old instance that runs the same VDU, and
    rewrites the placement constraints from old ids to new ones, in place. */
module HealPairing {
  import opened Common

  datatype Vnfc = Vnfc(id: string, vdu: string)
  datatype ResourceDefinition = ResourceDefinition(id: string, kind: string, vdu: string, template: string)

  /** One entry of a placement constraint's JSON list. */
  datatype Resource = Resource(idType: string, resourceId: string)
  datatype Placement = Placement(group: string, resources: seq<Resource>)

  ghost function Ids(s: seq<Vnfc>): (r: seq<string>)
    ensures |r| == |s|
  {
    seq(|s|, i requires 0 <= i < |s| => s[i].id)
  }

  /** The positions in `s[..n]` that run `vdu`. */
  ghost function Running(s: seq<Vnfc>, n: nat, vdu: string): set<nat>
    requires n <= |s|
  {
    set i: nat | i < n && s[i].vdu == vdu
  }

  /** Each VDU has as many VNFCs before the heal as after it. */
  ghost predicate Balanced(before: seq<Vnfc>, after: seq<Vnfc>) {
    forall vdu: string :: |Running(before, |before|, vdu)| == |Running(after, |after|, vdu)|
  }

  // ---------------------------------------------------------------- the pairing

  /** `idx[i]` is the old VNFC given to `after[i]`. */
  ghost predicate PairedPrefix(before: seq<Vnfc>, after: seq<Vnfc>, idx: seq<nat>) {
    && |idx| <= |after| && Distinct(idx)
    && forall i :: 0 <= i < |idx| ==> idx[i] < |before| && before[idx[i]].vdu == after[i].vdu
  }

  /** ... and `keys` lists the ids of those old VNFCs. */
  ghost predicate Paired(before: seq<Vnfc>, after: seq<Vnfc>, idx: seq<nat>, keys: seq<string>) {
    && PairedPrefix(before, after, idx)
    && |keys| == |idx| && forall i :: 0 <= i < |idx| ==> keys[i] == before[idx[i]].id
  }

  lemma {:induction false} ImageSize(s: set<nat>, idx: seq<nat>, image: set<nat>)
    requires Distinct(idx) && forall i :: i in s ==> i < |idx|
    requires image == set i | i in s :: idx[i]
    ensures |image| == |s|
    decreases |s|
  {
    if s != {} {
      var x :| x in s;
      assert idx[x] in image;
      assert image - {idx[x]} == set i | i in s - {x} :: idx[i];
      ImageSize(s - {x}, idx, image - {idx[x]});
    }
  }

  lemma {:induction false} SubsetSize(a: set<nat>, b: set<nat>)
    requires a <= b
    ensures |a| <= |b|
    decreases |a|
  {
    if a != {} {
      var x :| x in a;
      SubsetSize(a - {x}, b - {x});
    }
  }

  /** Counting: as long as a new VNFC is left, an old one of its VDU is left as well. */
  lemma UnpairedExists(before: seq<Vnfc>, after: seq<Vnfc>, idx: seq<nat>)
    requires Balanced(before, after) && PairedPrefix(before, after, idx) && |idx| < |after|
    ensures exists j: nat :: j < |before| && before[j].vdu == after[|idx|].vdu && j !in idx
  {
    var n, vdu := |idx|, after[|idx|].vdu;
    var done := Running(after, n, vdu);
    var used := set i | i in done :: idx[i];
    ImageSize(done, idx, used);
    SubsetSize(done + {n}, Running(after, |after|, vdu));
    var old_ := Running(before, |before|, vdu);
    if old_ <= used {
      SubsetSize(old_, used);
      assert false;
    }
    var j :| j in old_ && j !in used;
    assert forall i :: 0 <= i < |idx| && idx[i] == j ==> i in done;
  }

  /** ... and when none is left, every old VNFC has been used. */
  lemma EveryOneUsed(before: seq<Vnfc>, after: seq<Vnfc>, idx: seq<nat>, j: nat)
    requires Balanced(before, after) && PairedPrefix(before, after, idx) && |idx| == |after|
    requires j < |before|
    ensures j in idx
  {
    var vdu := before[j].vdu;
    var news := Running(after, |after|, vdu);
    var used := set i | i in news :: idx[i];
    ImageSize(news, idx, used);
    if j !in idx {
      SubsetSize(used + {j}, Running(before, |before|, vdu));
      assert false;
    }
  }

  /** The pairing is a VDU-preserving bijection: `keys[i]` is the old id paired with `after[i]`. */
  ghost predicate Bijection(before: seq<Vnfc>, after: seq<Vnfc>, keys: seq<string>) {
    && |keys| == |after|
    && Distinct(keys)
    && (forall i :: 0 <= i < |keys| ==> Vnfc(keys[i], after[i].vdu) in before)
    && (forall j :: 0 <= j < |before| ==> before[j].id in keys)
  }

  lemma PairedIsBijection(before: seq<Vnfc>, after: seq<Vnfc>, idx: seq<nat>, keys: seq<string>)
    requires Balanced(before, after) && Distinct(Ids(before))
    requires Paired(before, after, idx, keys) && |idx| == |after|
    ensures Bijection(before, after, keys)
  {
    forall i, j | 0 <= i < j < |keys|
      ensures keys[i] != keys[j]
    {
      assert Ids(before)[idx[i]] != Ids(before)[idx[j]];
    }
    forall j: nat | j < |before|
      ensures before[j].id in keys
    {
      EveryOneUsed(before, after, idx, j);
      var i :| 0 <= i < |idx| && idx[i] == j;
      assert keys[i] == before[j].id;
    }
    forall i | 0 <= i < |keys|
      ensures Vnfc(keys[i], after[i].vdu) in before
    {
      assert before[idx[i]] == Vnfc(keys[i], after[i].vdu);
    }
  }

  // ---------------------------------------------------------------- renaming constraints

  ghost function RenameResource(r: Resource, m: map<string, string>): Resource {
    if r.resourceId in m then Resource("GRANT", m[r.resourceId]) else r
  }

  ghost function RenamePlacement(p: Placement, m: map<string, string>): (q: Placement)
    ensures q.group == p.group && |q.resources| == |p.resources|
  {
    Placement(p.group, seq(|p.resources|, r requires 0 <= r < |p.resources| => RenameResource(p.resources[r], m)))
  }

  /** All constraints with their ids renamed; groups, sizes and order are kept. */
  ghost function Rename(ps: seq<Placement>, m: map<string, string>): (qs: seq<Placement>)
    ensures |qs| == |ps|
  {
    seq(|ps|, p requires 0 <= p < |ps| => RenamePlacement(ps[p], m))
  }

  lemma RenameNothing(ps: seq<Placement>)
    ensures Rename(ps, map[]) == ps
  {
    forall p | 0 <= p < |ps|
      ensures RenamePlacement(ps[p], map[]) == ps[p]
    {
      assert RenamePlacement(ps[p], map[]).resources == ps[p].resources;
    }
  }

  /** Old ids to new ones, for the first n pairs. */
  ghost function PairMap(keys: seq<string>, after: seq<Vnfc>, n: nat): map<string, string>
    requires n <= |keys| && n <= |after|
  {
    if n == 0 then map[] else PairMap(keys, after, n - 1)[keys[n - 1] := after[n - 1].id]
  }

  lemma {:induction false} PairMapDomain(keys: seq<string>, after: seq<Vnfc>, n: nat)
    requires n <= |keys| && n <= |after|
    ensures forall k :: k in PairMap(keys, after, n) <==> k in keys[..n]
    ensures forall k :: k in PairMap(keys, after, n) ==> PairMap(keys, after, n)[k] in Ids(after)
  {
    if n > 0 {
      PairMapDomain(keys, after, n - 1);
      assert keys[..n] == keys[..n - 1] + [keys[n - 1]];
      assert Ids(after)[n - 1] == after[n - 1].id;
    }
  }

  /** With distinct keys the map gives `keys[i]` the new id of its own pair. */
  lemma {:induction false} PairMapAt(keys: seq<string>, after: seq<Vnfc>, n: nat, i: nat)
    requires n <= |keys| && n <= |after| && i < n && Distinct(keys)
    ensures keys[i] in PairMap(keys, after, n) && PairMap(keys, after, n)[keys[i]] == after[i].id
  {
    if i < n - 1 { PairMapAt(keys, after, n - 1, i); }
  }

  ghost predicate Occurs(ps: seq<Placement>, p: nat, r: nat, id: string) {
    p < |ps| && r < |ps[p].resources| && ps[p].resources[r].resourceId == id
  }

  /** The id occurs at most once across all constraints. */
  ghost predicate AtMostOnce(ps: seq<Placement>, id: string) {
    forall p: nat, r: nat, p': nat, r': nat ::
      Occurs(ps, p, r, id) && Occurs(ps, p', r', id) ==> p == p' && r == r'
  }

  /** What rewriting one id does: the first occurrence, in list order, is replaced. */
  ghost predicate Rewritten(ps: seq<Placement>, qs: seq<Placement>, id: string, fresh_: string, group: Option<string>) {
    if group.None? then
      qs == ps && forall p: nat, r: nat :: !Occurs(ps, p, r, id)
    else
      exists p: nat, r: nat ::
        Occurs(ps, p, r, id) && group == Some(ps[p].group) && NotBefore(ps, p, r, id)
        && qs == ps[p := ReplaceAt(ps[p], r, fresh_)]
  }

  /** The id does not occur before entry r of constraint p. */
  ghost predicate NotBefore(ps: seq<Placement>, p: nat, r: nat, id: string) {
    forall q: nat, t: nat :: q < p || (q == p && t < r) ==> !Occurs(ps, q, t, id)
  }

  function ReplaceAt(p: Placement, r: nat, fresh_: string): Placement
    requires r < |p.resources|
  {
    p.(resources := p.resources[r := Resource("GRANT", fresh_)])
  }

  /** Renaming one more pair after a renaming is one renaming by the larger map. */
  lemma {:induction false} RenameOneMore(ps: seq<Placement>, m: map<string, string>, id: string, fresh_: string,
                      qs: seq<Placement>, group: Option<string>)
    requires id !in m && (forall k :: k in m ==> m[k] != id)
    requires AtMostOnce(ps, id)
    requires Rewritten(Rename(ps, m), qs, id, fresh_, group)
    ensures qs == Rename(ps, m[id := fresh_])
    ensures group == GroupOf(ps, id)
  {
    var rs := Rename(ps, m);
    assert forall p: nat, r: nat :: Occurs(rs, p, r, id) <==> Occurs(ps, p, r, id);
    var m' := m[id := fresh_];
    if group.None? {
      GroupOfNone(ps, id);
      forall p: nat | p < |ps|
        ensures qs[p] == RenamePlacement(ps[p], m')
      {
        forall r: nat | r < |ps[p].resources|
          ensures qs[p].resources[r] == RenameResource(ps[p].resources[r], m')
        {
          assert !Occurs(ps, p, r, id);
        }
      }
    } else {
      var p0: nat, r0: nat :| Occurs(rs, p0, r0, id) && group == Some(rs[p0].group)
                              && qs == rs[p0 := ReplaceAt(rs[p0], r0, fresh_)];
      forall p: nat | p < |ps|
        ensures qs[p] == RenamePlacement(ps[p], m')
      {
        forall r: nat | r < |ps[p].resources|
          ensures qs[p].resources[r] == RenameResource(ps[p].resources[r], m')
        {
          if Occurs(ps, p, r, id) {
            assert p == p0 && r == r0;
          }
        }
      }
      GroupOfOccurrence(ps, id, p0, r0);
    }
  }

  // ---------------------------------------------------------------- the loops

  /** The search for an unused old VNFC of the same VDU; the first one wins. */
  method FindUnused(before: seq<Vnfc>, used: seq<string>, vdu: string) returns (j: nat)
    ensures j <= |before|
    ensures j < |before| ==> before[j].vdu == vdu && before[j].id !in used
    ensures forall k :: 0 <= k < j ==> !(before[k].vdu == vdu && before[k].id !in used)
  {
    j := 0;
    while j < |before| && !(before[j].vdu == vdu && before[j].id !in used)
      invariant j <= |before|
      invariant forall k :: 0 <= k < j ==> !(before[k].vdu == vdu && before[k].id !in used)
    {
      j := j + 1;
    }
  }

  /** The two inner loops over the constraints; they stop at the first match. Comparing with a
      name that was never bound raises, as soon as there is an entry to compare. */
  method RewriteFirst(placements: array<Placement>, key: Option<string>, fresh_: string)
    returns (raised: bool, group: Option<string>)
    modifies placements
    ensures key.Some? ==>
              !raised && Rewritten(old(placements[..]), placements[..], key.value, fresh_, group)
    ensures key.None? ==> group.None? && placements[..] == old(placements[..])
    ensures key.None? ==>
              (raised <==> exists p :: 0 <= p < placements.Length && old(placements[p]).resources != [])
  {
    ghost var ps := placements[..];
    for p := 0 to placements.Length
      invariant placements[..] == ps
      invariant key.Some? ==> forall q: nat, r: nat :: q < p ==> !Occurs(ps, q, r, key.value)
      invariant key.None? ==> forall q :: 0 <= q < p ==> ps[q].resources == []
    {
      var entries := placements[p].resources;
      assert entries == ps[p].resources;
      for r := 0 to |entries|
        invariant placements[..] == ps
        invariant key.Some? ==> forall r' :: 0 <= r' < r ==> entries[r'].resourceId != key.value
        invariant key.None? ==> r == 0
      {
        if key.None? {
          return true, None;
        }
        if entries[r].resourceId == key.value {
          assert Occurs(ps, p, r, key.value) && NotBefore(ps, p, r, key.value);
          placements[p] := placements[p].(resources := entries[r := Resource("GRANT", fresh_)]);
          assert placements[..] == ps[p := ReplaceAt(ps[p], r, fresh_)];
          return false, Some(placements[p].group);
        }
      }
    }
    return false, None;
  }

  /** The VNFC part of `_init_add_resources`. `key_id` is left over from the iteration before
      when no old VNFC matches. */
  method InitAddResources(after: seq<Vnfc>, before: seq<Vnfc>, placements: array<Placement>)
    returns (raised: bool, added: seq<ResourceDefinition>, affinity: seq<string>, keys: seq<string>)
    modifies placements
    ensures !raised ==>
              && |added| == |after|
              && forall i :: 0 <= i < |after| ==>
                   added[i] == ResourceDefinition(after[i].id, "COMPUTE", after[i].vdu, after[i].vdu)
    ensures Balanced(before, after) && Distinct(Ids(before)) ==>
              && !raised && Bijection(before, after, keys)
              && AllGreedy(before, after, keys)
    ensures Balanced(before, after) && Distinct(Ids(before)) && Renamable(before, after, old(placements[..])) ==>
              && placements[..] == Rename(old(placements[..]), PairMap(keys, after, |after|))
              && affinity == Groups(old(placements[..]), keys)
              && AllFollow(old(placements[..]), placements[..], keys, after)
  {
    ghost var ps := placements[..];
    ghost var idx: seq<nat> := [];
    raised, added, affinity, keys := false, [], [], [];
    var key := None;
    RenameNothing(ps);
    assert Renamed(after, ps, [], 0, ps, []);
    for i := 0 to |after|
      invariant |added| == i
      invariant forall k :: 0 <= k < i ==>
                  added[k] == ResourceDefinition(after[k].id, "COMPUTE", after[k].vdu, after[k].vdu)
      invariant SoundInput(before, after) ==> |keys| == i && Matched(before, after, idx, keys)
      invariant SoundInput(before, after) && Renamable(before, after, ps) ==>
                  Renamed(after, ps, keys, i, placements[..], affinity)
    {
      added := added + [ResourceDefinition(after[i].id, "COMPUTE", after[i].vdu, after[i].vdu)];
      raised, key, keys, affinity, idx := HandleVnfc(before, after, placements, i, key, keys, affinity, idx, ps);
      if raised {
        return;
      }
    }
    if SoundInput(before, after) {
      PairedIsBijection(before, after, idx, keys);
      AllRenamedFollow(ps, keys, after);
    }
  }

  ghost predicate SoundInput(before: seq<Vnfc>, after: seq<Vnfc>) {
    Balanced(before, after) && Distinct(Ids(before))
  }

  ghost predicate Matched(before: seq<Vnfc>, after: seq<Vnfc>, idx: seq<nat>, keys: seq<string>) {
    Paired(before, after, idx, keys) && AllGreedy(before, after, keys)
  }

  /** One iteration over the new VNFCs. */
  method HandleVnfc(before: seq<Vnfc>, after: seq<Vnfc>, placements: array<Placement>, i: nat, key0: Option<string>,
                    keys0: seq<string>, affinity0: seq<string>, ghost idx0: seq<nat>, ghost ps: seq<Placement>)
    returns (raised: bool, key: Option<string>, keys: seq<string>, affinity: seq<string>, ghost idx: seq<nat>)
    requires i < |after|
    requires SoundInput(before, after) ==> |keys0| == i && Matched(before, after, idx0, keys0)
    requires SoundInput(before, after) && Renamable(before, after, ps) ==>
               Renamed(after, ps, keys0, i, placements[..], affinity0)
    modifies placements
    ensures SoundInput(before, after) ==> !raised && |keys| == i + 1 && Matched(before, after, idx, keys)
    ensures SoundInput(before, after) && Renamable(before, after, ps) ==>
              Renamed(after, ps, keys, i + 1, placements[..], affinity)
  {
    key, keys, affinity, idx := key0, keys0, affinity0, idx0;
    var j := FindUnused(before, keys, after[i].vdu);
    if SoundInput(before, after) {
      PairStep(before, after, idx, keys, j);
    }
    if j < |before| {
      key := Some(before[j].id);
      keys := keys + [before[j].id];
      idx := idx + [j];
    }
    var group;
    raised, group := RewriteFirst(placements, key, after[i].id);
    if raised {
      return;
    }
    if group.Some? {
      affinity := affinity + [group.value];
    }
    if SoundInput(before, after) && Renamable(before, after, ps) {
      RenameStep(before, after, ps, keys0, j, placements[..], group, affinity0);
    }
  }

  ghost predicate AllFollow(ps: seq<Placement>, qs: seq<Placement>, keys: seq<string>, after: seq<Vnfc>) {
    && |qs| == |ps| && |keys| == |after|
    && forall p :: 0 <= p < |ps| ==> EntriesFollow(ps[p], qs[p], keys, after)
  }

  lemma {:induction false} AllRenamedFollow(ps: seq<Placement>, keys: seq<string>, after: seq<Vnfc>)
    requires |keys| == |after| && Distinct(keys)
    ensures AllFollow(ps, Rename(ps, PairMap(keys, after, |after|)), keys, after)
  {
    forall p | 0 <= p < |ps|
      ensures EntriesFollow(ps[p], RenamePlacement(ps[p], PairMap(keys, after, |after|)), keys, after)
    {
      RenamedEntries(ps[p], keys, after);
    }
  }

  /** Entry by entry: the id of an old VNFC is replaced by that of its new one, marked GRANT, and any
      other entry stays. */
  ghost predicate EntriesFollow(p: Placement, q: Placement, keys: seq<string>, after: seq<Vnfc>)
    requires |keys| == |after|
  {
    && q.group == p.group && |q.resources| == |p.resources|
    && forall r :: 0 <= r < |p.resources| ==>
         && (p.resources[r].resourceId !in keys ==> q.resources[r] == p.resources[r])
         && forall i :: 0 <= i < |keys| && keys[i] == p.resources[r].resourceId ==>
              q.resources[r] == Resource("GRANT", after[i].id)
  }

  lemma {:induction false} RenamedEntries(p: Placement, keys: seq<string>, after: seq<Vnfc>)
    requires |keys| == |after| && Distinct(keys)
    ensures EntriesFollow(p, RenamePlacement(p, PairMap(keys, after, |after|)), keys, after)
  {
    PairMapDomain(keys, after, |after|);
    assert keys[..|after|] == keys;
    forall i | 0 <= i < |keys|
      ensures keys[i] in PairMap(keys, after, |after|) && PairMap(keys, after, |after|)[keys[i]] == after[i].id
    {
      PairMapAt(keys, after, |after|, i);
    }
  }

  /** `keys[i]` is the id of the first VNFC of its VDU that is not among the keys before it. */
  ghost predicate Greedy(before: seq<Vnfc>, after: seq<Vnfc>, keys: seq<string>, i: nat)
    requires i < |keys| && i < |after|
  {
    exists j :: && 0 <= j < |before| && before[j] == Vnfc(keys[i], after[i].vdu) && keys[i] !in keys[..i]
                && forall k :: 0 <= k < j && before[k].vdu == after[i].vdu ==> before[k].id in keys[..i]
  }

  ghost predicate AllGreedy(before: seq<Vnfc>, after: seq<Vnfc>, keys: seq<string>) {
    |keys| <= |after| && forall i :: 0 <= i < |keys| ==> Greedy(before, after, keys, i)
  }

  lemma GreedyOneMore(before: seq<Vnfc>, after: seq<Vnfc>, keys: seq<string>, j: nat)
    requires |keys| < |after| && j < |before|
    requires before[j].vdu == after[|keys|].vdu && before[j].id !in keys
    requires forall k :: 0 <= k < j ==> !(before[k].vdu == after[|keys|].vdu && before[k].id !in keys)
    requires AllGreedy(before, after, keys)
    ensures AllGreedy(before, after, keys + [before[j].id])
  {
    var more := keys + [before[j].id];
    forall i | 0 <= i <= |keys|
      ensures Greedy(before, after, more, i)
    {
      if i < |keys| {
        assert Greedy(before, after, keys, i) && more[..i] == keys[..i] && more[i] == keys[i];
      } else {
        assert more[..i] == keys && before[j] == Vnfc(more[i], after[i].vdu);
      }
    }
  }

  lemma PairStep(before: seq<Vnfc>, after: seq<Vnfc>, idx: seq<nat>, keys: seq<string>, j: nat)
    requires Balanced(before, after) && Distinct(Ids(before))
    requires Paired(before, after, idx, keys) && |idx| < |after| && AllGreedy(before, after, keys)
    requires j <= |before|
    requires j < |before| ==> before[j].vdu == after[|idx|].vdu && before[j].id !in keys
    requires forall k :: 0 <= k < j ==> !(before[k].vdu == after[|idx|].vdu && before[k].id !in keys)
    ensures j < |before| && Paired(before, after, idx + [j], keys + [before[j].id])
    ensures AllGreedy(before, after, keys + [before[j].id])
  {
    FindsOne(before, after, idx, keys, j);
    GreedyOneMore(before, after, keys, j);
  }

  /** Old ids occur at most once across the constraints and new ids are none of the old ones. */
  ghost predicate Renamable(before: seq<Vnfc>, after: seq<Vnfc>, ps: seq<Placement>) {
    && (forall j :: 0 <= j < |before| ==> AtMostOnce(ps, before[j].id))
    && (forall i, j :: 0 <= i < |after| && 0 <= j < |before| ==> after[i].id != before[j].id)
  }

  /** The group of the first constraint that mentions the id. */
  ghost function GroupOf(ps: seq<Placement>, id: string): Option<string> {
    if ps == [] then None
    else if exists r: nat :: Occurs(ps, 0, r, id) then Some(ps[0].group)
    else GroupOf(ps[1..], id)
  }

  /** The groups of the constraints that mention the keys, in the order of the keys. */
  ghost function Groups(ps: seq<Placement>, keys: seq<string>): seq<string> {
    if keys == [] then []
    else
      var last := |keys| - 1;
      Groups(ps, keys[..last]) + match GroupOf(ps, keys[last]) case None => [] case Some(g) => [g]
  }

  lemma {:induction false} GroupOfOccurrence(ps: seq<Placement>, id: string, p: nat, r: nat)
    requires Occurs(ps, p, r, id) && AtMostOnce(ps, id)
    ensures GroupOf(ps, id) == Some(ps[p].group)
  {
    if p > 0 {
      assert forall q: nat, t: nat :: Occurs(ps[1..], q, t, id) <==> Occurs(ps, q + 1, t, id);
      assert forall t: nat :: !Occurs(ps, 0, t, id);
      GroupOfOccurrence(ps[1..], id, p - 1, r);
    }
  }

  lemma {:induction false} GroupOfNone(ps: seq<Placement>, id: string)
    requires forall p: nat, r: nat :: !Occurs(ps, p, r, id)
    ensures GroupOf(ps, id) == None
  {
    if ps != [] {
      assert forall t: nat :: !Occurs(ps, 0, t, id);
      assert forall q: nat, t: nat :: Occurs(ps[1..], q, t, id) <==> Occurs(ps, q + 1, t, id);
      GroupOfNone(ps[1..], id);
    }
  }

  lemma FindsOne(before: seq<Vnfc>, after: seq<Vnfc>, idx: seq<nat>, keys: seq<string>, j: nat)
    requires Balanced(before, after) && Distinct(Ids(before))
    requires Paired(before, after, idx, keys) && |idx| < |after|
    requires j <= |before|
    requires j < |before| ==> before[j].vdu == after[|idx|].vdu && before[j].id !in keys
    requires forall k :: 0 <= k < j ==> !(before[k].vdu == after[|idx|].vdu && before[k].id !in keys)
    ensures j < |before| && Paired(before, after, idx + [j], keys + [before[j].id])
  {
    UnpairedExists(before, after, idx);
    var f: nat :| f < |before| && before[f].vdu == after[|idx|].vdu && f !in idx;
    forall k | 0 <= k < |idx|
      ensures keys[k] != before[f].id
    {
      assert Ids(before)[idx[k]] != Ids(before)[f];
    }
  }

  /** The constraints and the affinity list once the first n new VNFCs are handled. */
  ghost predicate Renamed(after: seq<Vnfc>, ps: seq<Placement>, keys: seq<string>, n: nat,
                          qs: seq<Placement>, affinity: seq<string>)
  {
    n == |keys| <= |after| && qs == Rename(ps, PairMap(keys, after, n)) && affinity == Groups(ps, keys)
  }

  lemma {:induction false} RenameStep(before: seq<Vnfc>, after: seq<Vnfc>, ps: seq<Placement>, keys: seq<string>,
                                      j: nat, qs: seq<Placement>, group: Option<string>, affinity: seq<string>)
    requires Renamable(before, after, ps)
    requires |keys| < |after| && j < |before| && before[j].id !in keys
    requires Rewritten(Rename(ps, PairMap(keys, after, |keys|)), qs, before[j].id, after[|keys|].id, group)
    requires affinity == Groups(ps, keys)
    ensures Renamed(after, ps, keys + [before[j].id], |keys| + 1, qs,
                    affinity + if group.Some? then [group.value] else [])
  {
    var n, id, m := |keys|, before[j].id, PairMap(keys, after, |keys|);
    assert id !in m && forall k :: k in m ==> m[k] != id by {
      PairMapDomain(keys, after, n);
    }
    assert PairMap(keys + [id], after, n + 1) == m[id := after[n].id] by {
      PairMapPrefix(keys, keys + [id], after, n);
    }
    RenameOneMore(ps, m, id, after[n].id, qs, group);
    assert (keys + [id])[..n] == keys;
  }

  lemma {:induction false} PairMapPrefix(keys: seq<string>, more: seq<string>, after: seq<Vnfc>, n: nat)
    requires keys <= more && n <= |keys| && n <= |after|
    ensures PairMap(keys, after, n) == PairMap(more, after, n)
  {
    if n > 0 { PairMapPrefix(keys, more, after, n - 1); }
  }
}
