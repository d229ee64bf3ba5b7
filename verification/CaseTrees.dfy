/** The key conversions applied throughout a JSON tree, with the values under the additional
    parameters left alone. Dictionaries keep their insertion order. */
module CaseTrees {
  import opened CaseConversion

  datatype Key = Key(name: string)

  datatype Json = Atom(text: string) | Arr(items: seq<Json>) | Obj(members: seq<Member>)
  datatype Member = Member(key: Key, value: Json)

  function ToSnake(k: Key): Key { Key(Snake(k.name)) }
  function ToCamel(k: Key): Key { Key(Camel(k.name)) }

  const CAMEL_PARAMS := Key(ADDITIONAL_CAMEL)
  const SNAKE_PARAMS := Key(ADDITIONAL_SNAKE)

  ghost predicate Ok(k: Key) { KeyOk(k.name) }

  lemma OkRoundTrip(k: Key)
    requires Ok(k)
    ensures ToCamel(ToSnake(k)) == k
    ensures ToSnake(k) == SNAKE_PARAMS <==> k == CAMEL_PARAMS
  {
    KeyRoundTrip(k.name);
    AdditionalConverts();
    if ToSnake(k) == SNAKE_PARAMS { KeysStayApart(k.name, ADDITIONAL_CAMEL); }
  }

  // ---------------------------------------------------------------- dictionaries

  /** The position of the key, or the length. */
  function Find(d: seq<Member>, key: Key): (i: nat)
    ensures i <= |d| && (i < |d| ==> d[i].key == key) && forall j :: 0 <= j < i ==> d[j].key != key
  {
    if d == [] || d[0].key == key then 0 else 1 + Find(d[1..], key)
  }

  /** `d[key] = value`: an existing key keeps its place, a new one goes to the end. */
  function Put(d: seq<Member>, key: Key, value: Json): seq<Member> {
    var i := Find(d, key);
    if i < |d| then d[i := Member(key, value)] else d + [Member(key, value)]
  }

  // ---------------------------------------------------------------- the conversions

  /** camelCase to snake_case. */
  function SnakeTree(j: Json): Json
    decreases j, 1
  {
    match j
    case Atom(_) => j
    case Arr(items) => Arr(seq(|items|, i requires 0 <= i < |items| => SnakeTree(items[i])))
    case Obj(members) => Obj(SnakeMembers(j, |members|))
  }

  function SnakeValue(m: Member): Json
    decreases m, 0
  {
    if m.key == CAMEL_PARAMS then m.value else SnakeTree(m.value)
  }

  /** The new dictionary after the first n members. */
  function SnakeMembers(j: Json, n: nat): seq<Member>
    requires j.Obj? && n <= |j.members|
    decreases j, 0, n
  {
    if n == 0 then []
    else
      var m := j.members[n - 1];
      Put(SnakeMembers(j, n - 1), ToSnake(m.key), SnakeValue(m))
  }

  /** snake_case to camelCase. */
  function CamelTree(j: Json): Json
    decreases j, 1
  {
    match j
    case Atom(_) => j
    case Arr(items) => Arr(seq(|items|, i requires 0 <= i < |items| => CamelTree(items[i])))
    case Obj(members) => Obj(CamelMembers(j, |members|))
  }

  function CamelValue(m: Member): Json
    decreases m, 0
  {
    if m.key == SNAKE_PARAMS then m.value else CamelTree(m.value)
  }

  function CamelMembers(j: Json, n: nat): seq<Member>
    requires j.Obj? && n <= |j.members|
    decreases j, 0, n
  {
    if n == 0 then []
    else
      var m := j.members[n - 1];
      Put(CamelMembers(j, n - 1), ToCamel(m.key), CamelValue(m))
  }

  /** `convert_camelcase_to_snakecase`, loops and all. */
  method ConvertToSnake(j: Json) returns (r: Json)
    ensures r == SnakeTree(j)
    decreases j
  {
    if j.Obj? {
      var dict: seq<Member> := [];
      for i := 0 to |j.members|
        invariant dict == SnakeMembers(j, i)
      {
        var m := j.members[i];
        var value := m.value;
        if m.key != CAMEL_PARAMS {
          value := ConvertToSnake(value);
        }
        dict := Put(dict, ToSnake(m.key), value);
      }
      return Obj(dict);
    }
    if j.Arr? {
      var list: seq<Json> := [];
      for i := 0 to |j.items|
        invariant |list| == i && forall k :: 0 <= k < i ==> list[k] == SnakeTree(j.items[k])
      {
        var item := ConvertToSnake(j.items[i]);
        list := list + [item];
      }
      return Arr(list);
    }
    return j;
  }

  /** `convert_snakecase_to_camelcase`. */
  method ConvertToCamel(j: Json) returns (r: Json)
    ensures r == CamelTree(j)
    decreases j
  {
    if j.Obj? {
      var dict: seq<Member> := [];
      for i := 0 to |j.members|
        invariant dict == CamelMembers(j, i)
      {
        var m := j.members[i];
        var value := m.value;
        if m.key != SNAKE_PARAMS {
          value := ConvertToCamel(value);
        }
        dict := Put(dict, ToCamel(m.key), value);
      }
      return Obj(dict);
    }
    if j.Arr? {
      var list: seq<Json> := [];
      for i := 0 to |j.items|
        invariant |list| == i && forall k :: 0 <= k < i ==> list[k] == CamelTree(j.items[k])
      {
        var item := ConvertToCamel(j.items[i]);
        list := list + [item];
      }
      return Arr(list);
    }
    return j;
  }

  // ---------------------------------------------------------------- round trip

  ghost predicate DistinctKeys(d: seq<Member>) { forall i, j :: 0 <= i < j < |d| ==> d[i].key != d[j].key }

  /** All keys outside additional parameters survive the conversion, and no dictionary has a
      key twice. */
  ghost predicate TreeOk(j: Json)
    decreases j
  {
    match j
    case Atom(_) => true
    case Arr(items) => forall i :: 0 <= i < |items| ==> TreeOk(items[i])
    case Obj(members) =>
      && DistinctKeys(members)
      && forall i :: 0 <= i < |members| ==>
           Ok(members[i].key) && (members[i].key == CAMEL_PARAMS || TreeOk(members[i].value))
  }

  lemma PutNew(d: seq<Member>, key: Key, value: Json)
    requires forall i :: 0 <= i < |d| ==> d[i].key != key
    ensures Put(d, key, value) == d + [Member(key, value)]
  {
  }

  lemma SnakeKeysApart(k: Key, l: Key)
    requires Ok(k) && Ok(l) && k != l
    ensures ToSnake(k) != ToSnake(l)
  {
    OkRoundTrip(k);
    OkRoundTrip(l);
  }

  /** No two keys are merged: the snake-cased dictionary has one member for each. */
  lemma {:induction false} SnakeMembersAre(j: Json)
    requires TreeOk(j) && j.Obj?
    ensures |SnakeMembers(j, |j.members|)| == |j.members|
    ensures forall i :: 0 <= i < |j.members| ==>
              SnakeMembers(j, |j.members|)[i] == Member(ToSnake(j.members[i].key), SnakeValue(j.members[i]))
  {
    forall i, k | 0 <= i < k < |j.members|
      ensures ToSnake(j.members[i].key) != ToSnake(j.members[k].key)
    {
      SnakeKeysApart(j.members[i].key, j.members[k].key);
    }
    SnakeMembersOfDistinct(j, |j.members|);
    assert j.members[..|j.members|] == j.members;
  }

  ghost predicate SnakeDistinct(ms: seq<Member>) {
    forall i, k :: 0 <= i < k < |ms| ==> ToSnake(ms[i].key) != ToSnake(ms[k].key)
  }

  /** `d` is `ms` converted member by member. */
  ghost predicate Converted(d: seq<Member>, ms: seq<Member>) {
    |d| == |ms| && forall i :: 0 <= i < |ms| ==> d[i] == Member(ToSnake(ms[i].key), SnakeValue(ms[i]))
  }

  lemma ConvertedStep(d: seq<Member>, ms: seq<Member>, n: nat)
    requires n < |ms| && SnakeDistinct(ms) && Converted(d, ms[..n])
    ensures var m := ms[n]; Converted(Put(d, ToSnake(m.key), SnakeValue(m)), ms[..n + 1])
  {
    var m := ms[n];
    forall i | 0 <= i < n
      ensures d[i].key != ToSnake(m.key)
    {
      assert ms[..n][i] == ms[i];
    }
    PutNew(d, ToSnake(m.key), SnakeValue(m));
    assert ms[..n + 1] == ms[..n] + [m];
  }

  lemma {:induction false} SnakeMembersOfDistinct(j: Json, n: nat)
    requires j.Obj? && n <= |j.members| && SnakeDistinct(j.members)
    ensures Converted(SnakeMembers(j, n), j.members[..n])
  {
    if n > 0 {
      SnakeMembersOfDistinct(j, n - 1);
      ConvertedStep(SnakeMembers(j, n - 1), j.members, n - 1);
    }
  }

  /** Converting the converted dictionary back restores its members one by one. */
  lemma {:induction false} CamelMembersAre(d: seq<Member>, s: Json, n: nat)
    requires DistinctKeys(d) && s.Obj? && n <= |d| == |s.members|
    requires forall i :: 0 <= i < |d| ==>
               ToCamel(s.members[i].key) == d[i].key && CamelValue(s.members[i]) == d[i].value
    ensures CamelMembers(s, n) == d[..n]
  {
    if n > 0 {
      CamelMembersAre(d, s, n - 1);
      PutNext(d, n - 1);
    }
  }

  lemma PutNext(d: seq<Member>, n: nat)
    requires DistinctKeys(d) && n < |d|
    ensures Put(d[..n], d[n].key, d[n].value) == d[..n + 1]
  {
    PutNew(d[..n], d[n].key, d[n].value);
    assert d[..n + 1] == d[..n] + [d[n]];
  }

  /** Snake-casing and then camel-casing a tree with such keys gives the same tree: keys, order,
      values, and whatever lies under additional parameters. */
  lemma {:induction false} TreeRoundTrip(j: Json)
    requires TreeOk(j)
    ensures CamelTree(SnakeTree(j)) == j
    decreases j
  {
    match j
    case Atom(_) =>
    case Arr(items) =>
      forall i | 0 <= i < |items|
        ensures CamelTree(SnakeTree(items[i])) == items[i]
      {
        TreeRoundTrip(items[i]);
      }
    case Obj(members) =>
      var s := SnakeTree(j);
      SnakeMembersAre(j);
      forall i | 0 <= i < |members|
        ensures ToCamel(s.members[i].key) == members[i].key && CamelValue(s.members[i]) == members[i].value
      {
        OkRoundTrip(members[i].key);
        if members[i].key != CAMEL_PARAMS { TreeRoundTrip(members[i].value); }
      }
      CamelMembersAre(members, s, |members|);
      assert members[..|members|] == members;
  }

  /** Whatever is under additional parameters is not touched at all. */
  lemma {:induction false} ParamsUntouched(j: Json, i: nat)
    requires TreeOk(j) && j.Obj? && i < |j.members| && j.members[i].key == CAMEL_PARAMS
    ensures |SnakeTree(j).members| == |j.members|
    ensures SnakeTree(j).members[i] == Member(SNAKE_PARAMS, j.members[i].value)
  {
    SnakeMembersAre(j);
    AdditionalConverts();
  }

  /** No key has a capital, whatever is under additional parameters aside. */
  ghost predicate SmallKeys(j: Json)
    decreases j, 0
  {
    match j
    case Atom(_) => true
    case Arr(items) => forall i :: 0 <= i < |items| ==> SmallKeys(items[i])
    case Obj(members) => forall i :: 0 <= i < |members| ==> SmallMember(members[i])
  }

  ghost predicate SmallMember(m: Member)
    decreases m, 0
  {
    NoCapitals(m.key.name) && (m.key == SNAKE_PARAMS || SmallKeys(m.value))
  }

  lemma {:induction false} PutSmall(d: seq<Member>, key: Key, value: Json)
    requires forall i :: 0 <= i < |d| ==> SmallMember(d[i])
    requires SmallMember(Member(key, value))
    ensures forall i :: 0 <= i < |Put(d, key, value)| ==> SmallMember(Put(d, key, value)[i])
  {
  }

  lemma ToSnakeIsSmall(k: Key)
    ensures NoCapitals(ToSnake(k).name)
  {
    LowerHasNoCapitals(SplitCapitals(SplitWords(k.name)));
  }

  /** Snake-casing any tree leaves no capital in any key, lists and nested objects included. */
  lemma {:induction false} SnakeTreeIsSmall(j: Json)
    ensures SmallKeys(SnakeTree(j))
    decreases j, 1
  {
    match j
    case Atom(_) =>
    case Arr(items) =>
      forall i | 0 <= i < |items|
        ensures SmallKeys(SnakeTree(items[i]))
      {
        SnakeTreeIsSmall(items[i]);
      }
    case Obj(members) =>
      SnakeMembersAreSmall(j, |members|);
  }

  lemma {:induction false} SnakeMembersAreSmall(j: Json, n: nat)
    requires j.Obj? && n <= |j.members|
    ensures forall i :: 0 <= i < n && i < |SnakeMembers(j, n)| ==> SmallMember(SnakeMembers(j, n)[i])
    ensures |SnakeMembers(j, n)| <= n
    decreases j, 0, n
  {
    if n > 0 {
      var m := j.members[n - 1];
      SnakeMembersAreSmall(j, n - 1);
      ToSnakeIsSmall(m.key);
      if m.key == CAMEL_PARAMS {
        AdditionalConverts();
      } else {
        SnakeTreeIsSmall(m.value);
      }
      PutSmall(SnakeMembers(j, n - 1), ToSnake(m.key), SnakeValue(m));
    }
  }

  lemma PutKeeps(d: seq<Member>, key: Key, value: Json, x: Member)
    requires x in d && x.key != key
    ensures x in Put(d, key, value)
  {
    var i :| 0 <= i < |d| && d[i] == x;
    assert Put(d, key, value)[i] == x;
  }

  lemma PutHas(d: seq<Member>, key: Key, value: Json)
    ensures Member(key, value) in Put(d, key, value)
  {
    assert Put(d, key, value)[Find(d, key)] == Member(key, value);
  }

  lemma PutDistinct(d: seq<Member>, key: Key, value: Json)
    requires DistinctKeys(d)
    ensures DistinctKeys(Put(d, key, value))
  {
  }

  /** Where several keys become one, the last of them gives the value, and no key comes out twice. */
  lemma {:induction false} LastKeyWins(j: Json, n: nat, i: nat)
    requires j.Obj? && i < n <= |j.members|
    requires forall k :: i < k < n ==> ToSnake(j.members[k].key) != ToSnake(j.members[i].key)
    ensures Member(ToSnake(j.members[i].key), SnakeValue(j.members[i])) in SnakeMembers(j, n)
    ensures DistinctKeys(SnakeMembers(j, n))
    decreases n
  {
    var m := j.members[n - 1];
    NoKeyTwice(j, n);
    if i == n - 1 {
      PutHas(SnakeMembers(j, n - 1), ToSnake(m.key), SnakeValue(m));
    } else {
      LastKeyWins(j, n - 1, i);
      PutKeeps(SnakeMembers(j, n - 1), ToSnake(m.key), SnakeValue(m),
               Member(ToSnake(j.members[i].key), SnakeValue(j.members[i])));
    }
  }

  lemma {:induction false} NoKeyTwice(j: Json, n: nat)
    requires j.Obj? && n <= |j.members|
    ensures DistinctKeys(SnakeMembers(j, n))
  {
    if n > 0 {
      NoKeyTwice(j, n - 1);
      PutDistinct(SnakeMembers(j, n - 1), ToSnake(j.members[n - 1].key), SnakeValue(j.members[n - 1]));
    }
  }
}
