/** Enhanced policy preprocessing: roles with a special prefix become attributes, a target that
    itself uses the wildcard `all` is checked, and wildcards among the attributes are then
    replaced by the target they cover. Letters are ASCII. */
module Policy {
  import opened Common

  datatype Key = Area | Vendor | Tenant

  /** One value for each of the three keys. */
  datatype Triple<+T> = Triple(area: T, vendor: T, tenant: T)
  {
    function Of(k: Key): T {
      match k
      case Area => area
      case Vendor => vendor
      case Tenant => tenant
    }
  }

  function Prefix(k: Key): string {
    match k
    case Area => "area_"
    case Vendor => "vendor_"
    case Tenant => "tenant_"
  }

  // ---------------------------------------------------------------- strings

  function Lower(s: string): (r: string)
    ensures |r| == |s|
    ensures forall i :: 0 <= i < |s| ==> r[i] == LowerChar(s[i])
  {
    seq(|s|, i requires 0 <= i < |s| => LowerChar(s[i]))
  }

  /** `\w` */
  predicate IsWord(c: char) { IsAlnum(c) || c == '_' }

  /** The position of the first `@`, or the length. */
  function At(s: string): (k: nat)
    ensures k <= |s| && (k < |s| ==> s[k] == '@') && forall i :: 0 <= i < k ==> s[i] != '@'
  {
    if s == [] || s[0] == '@' then 0 else
      var k := 1 + At(s[1..]);
      assert forall i :: 1 <= i < k ==> s[i] == s[1..][i - 1];
      k
  }

  /** `is_valid_area`: a match of `\w+@\w+` at the start. */
  predicate ValidArea(s: string) {
    var k := At(s);
    0 < k && k + 1 < |s| && IsWord(s[k + 1]) && forall i :: 0 <= i < k ==> IsWord(s[i])
  }

  /** Valid areas, in terms of how they are put together: some word characters, an `@` and at least
      one more word character. */
  lemma ValidAreaIff(s: string)
    ensures ValidArea(s)
            <==> exists area: string, c: char, rest: string ::
                   && s == area + "@" + [c] + rest && area != "" && IsWord(c)
                   && forall i :: 0 <= i < |area| ==> IsWord(area[i])
  {
    if ValidArea(s) {
      var k := At(s);
      assert s == s[..k] + "@" + [s[k + 1]] + s[k + 2..];
    }
    forall area: string, c: char, rest: string |
      s == area + "@" + [c] + rest && area != "" && IsWord(c) && forall i :: 0 <= i < |area| ==> IsWord(area[i])
      ensures ValidArea(s)
    {
      assert s[|area|] == '@' && s[|area| + 1] == c && forall i :: 0 <= i < |area| ==> s[i] == area[i];
      assert At(s) == |area|;
    }
  }

  /** What follows the first `@`. */
  function Region(s: string): string
    requires At(s) < |s|
  {
    s[At(s) + 1..]
  }

  /** A match of the key's special role pattern at the start: `all@\w+`, or just `all`. */
  predicate Special(k: Key, s: string) {
    if k == Area then "all@" <= s && |s| > 4 && IsWord(s[4]) else "all" <= s
  }

  lemma {:induction false} AtOfAll(s: string)
    requires "all@" <= s
    ensures At(s) == 3
  {
    assert s[3] == '@' && s[0] == 'a' && s[1] == 'l' && s[2] == 'l';
  }

  // ---------------------------------------------------------------- step 1: roles

  /** Some role names `x` for this key. */
  ghost predicate RoleNames(roles: seq<string>, k: Key, x: string) {
    x != "" && exists i :: 0 <= i < |roles| && Lower(roles[i]) == Prefix(k) + x
  }

  /** The attribute a lowercased role adds for the key, if any. */
  function Attribute(role: string, k: Key): seq<string> {
    if Prefix(k) <= role && |role| > |Prefix(k)| then [role[|Prefix(k)|..]] else []
  }

  /** The attributes of one key: `*`, and what the roles name. */
  ghost predicate Converted(roles: seq<string>, k: Key, attrs: seq<string>) {
    forall x :: x in attrs <==> x == "*" || RoleNames(roles, k, x)
  }

  method ConvertRole(roles: seq<string>, i: nat, k: Key, attrs: seq<string>) returns (out: seq<string>)
    requires i < |roles| && Converted(roles[..i], k, attrs)
    ensures Converted(roles[..i + 1], k, out)
  {
    var role := Lower(roles[i]);
    out := attrs;
    if Prefix(k) <= role {
      var attr := role[|Prefix(k)|..];
      if attr != "" {
        out := out + [attr];
      }
    }
    assert out == attrs + Attribute(role, k);
    forall x
      ensures x in out <==> x == "*" || RoleNames(roles[..i + 1], k, x)
    {
      RoleNamesOneMore(roles, i, k, x);
    }
  }

  method ConvertRoles(roles: seq<string>) returns (attrs: Triple<seq<string>>)
    ensures forall k :: Converted(roles, k, attrs.Of(k))
  {
    var area, vendor, tenant := ["*"], ["*"], ["*"];
    for i := 0 to |roles|
      invariant Converted(roles[..i], Area, area)
      invariant Converted(roles[..i], Vendor, vendor)
      invariant Converted(roles[..i], Tenant, tenant)
    {
      area := ConvertRole(roles, i, Area, area);
      vendor := ConvertRole(roles, i, Vendor, vendor);
      tenant := ConvertRole(roles, i, Tenant, tenant);
    }
    assert roles[..|roles|] == roles;
    attrs := Triple(area, vendor, tenant);
  }

  lemma RoleNamesOneMore(roles: seq<string>, i: nat, k: Key, x: string)
    requires i < |roles|
    ensures RoleNames(roles[..i + 1], k, x)
            <==> RoleNames(roles[..i], k, x) || x in Attribute(Lower(roles[i]), k)
  {
    var role := Lower(roles[i]);
    assert x in Attribute(role, k) <==> x != "" && role == Prefix(k) + x;
    assert roles[..i + 1] == roles[..i] + [roles[i]];
    if RoleNames(roles[..i], k, x) {
      var j :| 0 <= j < i && Lower(roles[..i][j]) == Prefix(k) + x;
      assert roles[..i + 1][j] == roles[..i][j];
    }
    if x != "" && role == Prefix(k) + x {
      assert roles[..i + 1][i] == roles[i];
    }
  }

  // ---------------------------------------------------------------- step 2: the target check

  /** A special target is let through if the user holds a special role of the same key, for an
      area one for everything or for that very region. */
  ghost predicate TargetOk(k: Key, v: string, attrs: seq<string>) {
    Special(k, v) ==>
      exists i :: 0 <= i < |attrs| && Special(k, attrs[i])
                  && (k == Area ==> attrs[i] == "all@all" || attrs[i] == Lower(v))
  }

  method CheckKey(k: Key, v: string, attrs: seq<string>) returns (ok: bool)
    ensures ok <==> TargetOk(k, v, attrs)
  {
    if !Special(k, v) {
      return true;
    }
    ok := false;
    for i := 0 to |attrs|
      invariant ok <==> exists h :: 0 <= h < i && Special(k, attrs[h])
                          && (k == Area ==> attrs[h] == "all@all" || attrs[h] == Lower(v))
    {
      if Special(k, attrs[i]) {
        if k == Area && attrs[i] != "all@all" && attrs[i] != Lower(v) {
          continue;
        }
        ok := true;
      }
    }
  }

  ghost predicate KeyOk(k: Key, v: Option<string>, attrs: seq<string>) {
    v.Some? ==> TargetOk(k, v.value, attrs)
  }

  method CheckTarget(target: Triple<Option<string>>, attrs: Triple<seq<string>>) returns (ok: bool)
    ensures ok <==> forall k :: KeyOk(k, target.Of(k), attrs.Of(k))
  {
    ok := true;
    if target.area.Some? {
      ok := CheckKey(Area, target.area.value, attrs.area);
      assert KeyOk(Area, target.Of(Area), attrs.Of(Area)) <==> ok;
      if !ok { return; }
    }
    if target.vendor.Some? {
      ok := CheckKey(Vendor, target.vendor.value, attrs.vendor);
      assert KeyOk(Vendor, target.Of(Vendor), attrs.Of(Vendor)) <==> ok;
      if !ok { return; }
    }
    if target.tenant.Some? {
      ok := CheckKey(Tenant, target.tenant.value, attrs.tenant);
      assert KeyOk(Tenant, target.Of(Tenant), attrs.Of(Tenant)) <==> ok;
    }
  }

  // ---------------------------------------------------------------- step 3: wildcards

  /** The attribute is a wildcard that the expansion consumes. */
  predicate Wild(k: Key, a: string) {
    if k == Area then ValidArea(a) && "all@" <= a else a == "all"
  }

  /** The wildcard covers the (lowercased) target. */
  predicate Covers(k: Key, a: string, t: string)
    requires Wild(k, a) && Expandable(k, t)
  {
    k != Area || a == "all@all" || Region(a) == Region(t)
  }

  /** The expansion applies to this target. */
  predicate Expandable(k: Key, t: string) { t != "*" && (k == Area ==> ValidArea(t)) }

  function Remove(s: seq<string>, x: string): (r: seq<string>)
    requires x in s
    ensures multiset(r) == multiset(s) - multiset{x}
  {
    if s[0] == x then
      assert s == [s[0]] + s[1..];
      s[1..]
    else
      assert s == [s[0]] + s[1..];
      [s[0]] + Remove(s[1..], x)
  }

  ghost function IsWild(k: Key): string -> bool { a => Wild(k, a) }

  ghost function IsCovering(k: Key, t: string): string -> bool
    requires Expandable(k, t)
  {
    a => Wild(k, a) && Covers(k, a, t)
  }

  /** How many of the attributes are wildcards covering the target. */
  ghost function Covering(k: Key, attrs: seq<string>, t: string): nat
    requires Expandable(k, t)
  {
    |Select(attrs, IsCovering(k, t))|
  }

  /** What one attribute contributes: itself to the removals, the target to the list. */
  method Consider(k: Key, attr: string, t: string) returns (remove: seq<string>, add: seq<string>)
    requires Expandable(k, t)
    ensures remove == if IsWild(k)(attr) then [attr] else []
    ensures add == if IsCovering(k, t)(attr) then [t] else []
  {
    remove, add := [], [];
    if k == Area {
      if ValidArea(attr) {
        if attr == "all@all" {
          remove, add := [attr], [t];
        } else if "all@" <= attr {
          remove := [attr];
          if Region(attr) == Region(t) {
            add := [t[..At(t)] + "@" + Region(attr)];
            assert add[0] == t;
          }
        }
      }
    } else if attr == "all" {
      remove, add := [attr], [t];
    }
  }

  ghost function Copies(t: string, n: nat): seq<string> { if n == 0 then [] else Copies(t, n - 1) + [t] }

  lemma {:induction false} CopiesCount(t: string, n: nat, x: string)
    ensures multiset(Copies(t, n))[x] == if x == t then n else 0
  {
    if n > 0 { CopiesCount(t, n - 1, x); }
  }

  lemma {:induction false} CopiesStep(k: Key, attrs: seq<string>, t: string, i: nat)
    requires Expandable(k, t) && i < |attrs|
    ensures Copies(t, Covering(k, attrs[..i + 1], t))
            == Copies(t, Covering(k, attrs[..i], t)) + if IsCovering(k, t)(attrs[i]) then [t] else []
  {
    SelectSnoc(attrs, IsCovering(k, t), i);
  }

  method Collect(k: Key, attrs: seq<string>, t: string) returns (out: seq<string>, toRemove: seq<string>)
    requires Expandable(k, t)
    ensures toRemove == Select(attrs, IsWild(k))
    ensures out == attrs + Copies(t, Covering(k, attrs, t))
  {
    out, toRemove := attrs, [];
    for i := 0 to |attrs|
      invariant toRemove == Select(attrs[..i], IsWild(k))
      invariant out == attrs + Copies(t, Covering(k, attrs[..i], t))
    {
      var remove, add := Consider(k, attrs[i], t);
      SelectSnoc(attrs, IsWild(k), i);
      CopiesStep(k, attrs, t, i);
      toRemove := toRemove + remove;
      out := out + add;
    }
    assert attrs[..|attrs|] == attrs;
  }

  method RemoveAll(full: seq<string>, toRemove: seq<string>) returns (out: seq<string>)
    requires forall x :: multiset(toRemove)[x] <= multiset(full)[x]
    ensures multiset(out) == multiset(full) - multiset(toRemove)
  {
    out := full;
    for i := 0 to |toRemove|
      invariant multiset(out) == multiset(full) - multiset(toRemove[..i])
    {
      RemovalFinds(full, out, toRemove, i);
      out := Remove(out, toRemove[i]);
      assert toRemove[..i + 1] == toRemove[..i] + [toRemove[i]];
    }
    assert toRemove[..|toRemove|] == toRemove;
  }

  lemma RemovalFinds(full: seq<string>, out: seq<string>, toRemove: seq<string>, i: nat)
    requires i < |toRemove| && multiset(out) == multiset(full) - multiset(toRemove[..i])
    requires forall x :: multiset(toRemove)[x] <= multiset(full)[x]
    ensures toRemove[i] in out
  {
    assert toRemove == toRemove[..i] + [toRemove[i]] + toRemove[i + 1..];
    assert multiset(toRemove)[toRemove[i]] >= multiset(toRemove[..i])[toRemove[i]] + 1;
    assert toRemove[i] in multiset(out);
  }

  /** What the expansion of one key leaves: every wildcard goes, one copy of the target comes for
      each wildcard that covers it, and all other attributes stay. */
  ghost predicate Expanded(k: Key, attrs: seq<string>, t: string, out: seq<string>) {
    if Expandable(k, t) then
      forall x :: multiset(out)[x] == (if Wild(k, x) then 0 else multiset(attrs)[x])
                                      + (if x == t then Covering(k, attrs, t) else 0)
    else out == attrs
  }

  lemma {:induction false} CollectedCount(k: Key, attrs: seq<string>, t: string, x: string)
    requires Expandable(k, t)
    ensures multiset(Select(attrs, IsWild(k)))[x] == if Wild(k, x) then multiset(attrs)[x] else 0
    ensures multiset(attrs + Copies(t, Covering(k, attrs, t)))[x]
            == multiset(attrs)[x] + if x == t then Covering(k, attrs, t) else 0
  {
    SelectCount(attrs, IsWild(k), x);
    CopiesCount(t, Covering(k, attrs, t), x);
  }

  /** No removal fails: `Remove` demands that its item is there. */
  method Expand(k: Key, attrs: seq<string>, t: string) returns (out: seq<string>)
    ensures Expanded(k, attrs, t, out)
  {
    if t == "*" || (k == Area && !ValidArea(t)) {
      return attrs;
    }
    var toRemove;
    out, toRemove := Collect(k, attrs, t);
    forall x
      ensures multiset(toRemove)[x] == if Wild(k, x) then multiset(attrs)[x] else 0
      ensures multiset(out)[x] == multiset(attrs)[x] + if x == t then Covering(k, attrs, t) else 0
    {
      CollectedCount(k, attrs, t, x);
    }
    out := RemoveAll(out, toRemove);
  }

  // ---------------------------------------------------------------- what the expansion means

  /** The names under which the attributes cover the target: itself, or a wildcard. */
  ghost predicate Matches(k: Key, t: string, names: iset<string>) {
    || t in names
    || (Expandable(k, t)
        && if k == Area then "all@all" in names || "all@" + Region(t) in names else "all" in names)
  }

  lemma AllRegionIsWild(t: string)
    requires ValidArea(t)
    ensures Wild(Area, "all@" + Region(t)) && Region("all@" + Region(t)) == Region(t)
  {
    var a := "all@" + Region(t);
    AtOfAll(a);
    assert a[4] == Region(t)[0];
  }

  lemma WildByRegion(a: string, t: string)
    requires ValidArea(t) && Wild(Area, a) && Region(a) == Region(t)
    ensures a == "all@" + Region(t)
  {
    AtOfAll(a);
    assert a == a[..4] + a[4..];
  }

  lemma AllAllIsWild()
    ensures Wild(Area, "all@all")
  {
    AtOfAll("all@all");
  }

  lemma CoveringArea(attrs: seq<string>, t: string)
    requires Expandable(Area, t)
    ensures Covering(Area, attrs, t) > 0 <==> "all@all" in attrs || "all@" + Region(t) in attrs
  {
    var test, own := IsCovering(Area, t), "all@" + Region(t);
    SelectNonEmpty(attrs, test);
    AllRegionIsWild(t);
    AllAllIsWild();
    assert test(own) && test("all@all");
    forall i | 0 <= i < |attrs| && test(attrs[i])
      ensures attrs[i] == "all@all" || attrs[i] == own
    {
      if attrs[i] != "all@all" { WildByRegion(attrs[i], t); }
    }
  }

  lemma CoveringOther(k: Key, attrs: seq<string>, t: string)
    requires k != Area && Expandable(k, t)
    ensures Covering(k, attrs, t) > 0 <==> "all" in attrs
  {
    SelectNonEmpty(attrs, IsCovering(k, t));
    assert IsCovering(k, t)("all");
  }

  /** The expanded list contains the target iff the attributes name it, directly or through
      `all`, `all@all` or `all@` its own region - and it gains nothing but the target. */
  lemma ExpandedContainsIff(k: Key, attrs: seq<string>, t: string, out: seq<string>)
    requires Expanded(k, attrs, t, out)
    ensures t in out <==> Matches(k, t, iset x | x in attrs)
    ensures forall x :: x in out ==> x in attrs || x == t
    ensures forall x :: x in attrs && !Wild(k, x) ==> x in out
  {
    if Expandable(k, t) {
      assert t in out <==> multiset(out)[t] > 0;
      assert t in attrs <==> multiset(attrs)[t] > 0;
      if k == Area {
        CoveringArea(attrs, t);
        if Wild(k, t) { WildByRegion(t, t); }
      } else {
        CoveringOther(k, attrs, t);
      }
      forall x
        ensures x in out ==> x in attrs || x == t
        ensures x in attrs && !Wild(k, x) ==> x in out
      {
        assert x in out <==> multiset(out)[x] > 0;
        assert x in attrs <==> multiset(attrs)[x] > 0;
      }
    }
  }

  lemma LowerSpecialArea(v: string)
    requires Special(Area, v)
    ensures "all@" <= Lower(v) && Wild(Area, Lower(v)) && Expandable(Area, Lower(v))
  {
    var t := Lower(v);
    assert t[0] == 'a' && t[1] == 'l' && t[2] == 'l' && t[3] == '@';
    assert t == t[..4] + t[4..] && t[..4] == "all@";
    AtOfAll(t);
  }

  /** An area target `all@region` that the check lets through is always matched afterwards. */
  lemma AcceptedAreaIsMatched(v: string, attrs: seq<string>, out: seq<string>)
    requires Special(Area, v) && TargetOk(Area, v, attrs)
    requires Expanded(Area, attrs, Lower(v), out)
    ensures Lower(v) in out
  {
    LowerSpecialArea(v);
    ExpandedContainsIff(Area, attrs, Lower(v), out);
  }

  /** For vendors and tenants it need not be: the pattern `all` matches any name that merely
      starts so. Holding the role `allied` lets a target `all` pass the check, and nothing
      matches it. */
  lemma AcceptedVendorNeedNotMatch(out: seq<string>)
    requires Expanded(Vendor, ["*", "allied"], "all", out)
    ensures Special(Vendor, "all") && TargetOk(Vendor, "all", ["*", "allied"])
    ensures "all" !in out
  {
    var attrs := ["*", "allied"];
    assert Special(Vendor, attrs[1]);
    ExpandedContainsIff(Vendor, attrs, "all", out);
  }

  // ---------------------------------------------------------------- all three steps

  datatype Outcome = Prepared(target: Triple<Option<string>>, attrs: Triple<seq<string>>) | TargetCheckError

  /** In terms of the roles alone: the prepared target is among the prepared attributes iff some
      role names it directly or by a wildcard that covers it, and nothing else is gained. */
  ghost predicate PreparedKey(roles: seq<string>, k: Key, v: Option<string>, tv: Option<string>, out: seq<string>) {
    if v.None? then tv.None? && Converted(roles, k, out)
    else
      && tv == Some(Lower(v.value))
      && (tv.value in out <==> tv.value == "*" || Matches(k, tv.value, iset x | RoleNames(roles, k, x)))
      && forall x :: x in out ==> x == "*" || RoleNames(roles, k, x) || x == tv.value
  }

  method PrepareKey(ghost roles: seq<string>, k: Key, v: Option<string>, attrs: seq<string>)
    returns (tv: Option<string>, out: seq<string>)
    requires Converted(roles, k, attrs)
    ensures PreparedKey(roles, k, v, tv, out)
    ensures v.Some? ==> tv == Some(Lower(v.value)) && Expanded(k, attrs, tv.value, out)
  {
    if v.None? {
      return None, attrs;
    }
    tv := Some(Lower(v.value));
    out := Expand(k, attrs, tv.value);
    ExpandedContainsIff(k, attrs, tv.value, out);
    StarIsNoWildcard(k, tv.value, attrs, iset x | RoleNames(roles, k, x));
  }

  /** The check of step 2, in terms of the roles. */
  ghost predicate Passes(roles: seq<string>, k: Key, v: string) {
    Special(k, v) ==>
      exists x :: RoleNames(roles, k, x) && Special(k, x) && (k == Area ==> x == "all@all" || x == Lower(v))
  }

  /** Which targets a user without roles is refused: vendors and tenants that start with `all`, areas
      that start with `all@` and a word character. */
  lemma RefusedWithoutRoles(v: string)
    ensures !Passes([], Vendor, v) <==> |v| >= 3 && v[..3] == "all"
    ensures !Passes([], Tenant, v) <==> |v| >= 3 && v[..3] == "all"
    ensures !Passes([], Area, v)
            <==> |v| >= 5 && v[..4] == "all@"
                 && ('a' <= v[4] <= 'z' || 'A' <= v[4] <= 'Z' || '0' <= v[4] <= '9' || v[4] == '_')
  {
    assert forall k, x :: !RoleNames([], k, x);
    assert |v| >= 3 ==> ("all" <= v <==> v[..3] == "all");
    assert |v| >= 4 ==> ("all@" <= v <==> v[..4] == "all@");
  }

  /** A role names `x` for a key iff, in lower case, it is the key's own name, an underscore and `x`. */
  lemma RolesByPrefix(role: string, x: string)
    requires x != ""
    ensures RoleNames([role], Area, x) <==> Lower(role) == "area_" + x
    ensures RoleNames([role], Vendor, x) <==> Lower(role) == "vendor_" + x
    ensures RoleNames([role], Tenant, x) <==> Lower(role) == "tenant_" + x
  {
    assert [role][0] == role;
  }

  /** The check looks at the target as it is spelled, the expansion at its lower case. So a special
      target is beyond the check, whoever asks, exactly if its leading `all` has a capital. */
  lemma CapitalsEvadeCheck(k: Key, v: string)
    requires Special(k, Lower(v))
    ensures (forall roles: seq<string> :: Passes(roles, k, v)) <==> v[..3] != "all"
  {
    assert Lower(v)[0] == 'a' && Lower(v)[1] == 'l' && Lower(v)[2] == 'l';
    if v[..3] == "all" {
      assert v[0] == 'a' && v[1] == 'l' && v[2] == 'l';
      if k == Area { assert Lower(v)[3] == '@' && IsWord(Lower(v)[4]); }
      assert !Passes([], k, v);
    }
  }

  lemma PassesByRoles(roles: seq<string>, k: Key, v: string, attrs: seq<string>)
    requires Converted(roles, k, attrs)
    ensures TargetOk(k, v, attrs) <==> Passes(roles, k, v)
  {
    if Special(k, v) {
      if TargetOk(k, v, attrs) {
        var i :| 0 <= i < |attrs| && Special(k, attrs[i])
                 && (k == Area ==> attrs[i] == "all@all" || attrs[i] == Lower(v));
        assert attrs[i] in attrs;
      }
      if Passes(roles, k, v) {
        var x :| RoleNames(roles, k, x) && Special(k, x) && (k == Area ==> x == "all@all" || x == Lower(v));
        assert x in attrs;
      }
    }
  }

  /** `_pre_enhanced_policy_check`. An area target `all@region` that passes the check is always
      among the attributes. */
  method PreCheck(target: Triple<Option<string>>, roles: seq<string>, isAdmin: bool, targetChk: bool)
    returns (r: Outcome)
    ensures r.TargetCheckError?
            <==> targetChk && !isAdmin
                 && exists k :: target.Of(k).Some? && !Passes(roles, k, target.Of(k).value)
    ensures r.Prepared? ==> forall k :: PreparedKey(roles, k, target.Of(k), r.target.Of(k), r.attrs.Of(k))
    ensures r.Prepared? && targetChk && !isAdmin && target.area.Some? && Special(Area, target.area.value) ==>
              Lower(target.area.value) in r.attrs.area
  {
    var attrs := ConvertRoles(roles);
    assert Converted(roles, Area, attrs.Of(Area)) && Converted(roles, Vendor, attrs.Of(Vendor))
           && Converted(roles, Tenant, attrs.Of(Tenant));
    if targetChk && !isAdmin {
      var ok := CheckTarget(target, attrs);
      forall k
        ensures KeyOk(k, target.Of(k), attrs.Of(k)) <==> target.Of(k).None? || Passes(roles, k, target.Of(k).value)
      {
        if target.Of(k).Some? { PassesByRoles(roles, k, target.Of(k).value, attrs.Of(k)); }
      }
      if !ok {
        return TargetCheckError;
      }
      assert KeyOk(Area, target.Of(Area), attrs.Of(Area));
    }
    var tArea, area := PrepareKey(roles, Area, target.area, attrs.area);
    var tVendor, vendor := PrepareKey(roles, Vendor, target.vendor, attrs.vendor);
    var tTenant, tenant := PrepareKey(roles, Tenant, target.tenant, attrs.tenant);
    if targetChk && !isAdmin && target.area.Some? && Special(Area, target.area.value) {
      AcceptedAreaIsMatched(target.area.value, attrs.area, area);
    }
    return Prepared(Triple(tArea, tVendor, tTenant), Triple(area, vendor, tenant));
  }

  /** The `*` that every user has matches only a target `*`. */
  lemma StarIsNoWildcard(k: Key, t: string, attrs: seq<string>, names: iset<string>)
    requires forall x :: x in attrs <==> x == "*" || x in names
    ensures Matches(k, t, iset x | x in attrs) <==> t == "*" || Matches(k, t, names)
  {
    if Expandable(k, t) && k == Area {
      assert ("all@" + Region(t))[0] == 'a';
    }
  }
}
