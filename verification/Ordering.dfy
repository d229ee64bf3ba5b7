/** Multi-key ordering of rows with mixed directions, and sorting by it.

    A cell is NULL or a value; values are compared only through `==`, `<` and `>`, so integers
    stand for the positions of a column's values in that column's own order. */
module Ordering {

  datatype Cell = Null | Val(v: int)

  type Row = map<string, Cell>

  datatype Sort = Sort(key: string, ascending: bool)

  function Get(r: Row, key: string): Cell { if key in r then r[key] else Null }

  /** NULL first, then by value: negative, zero or positive. */
  function CmpCell(a: Cell, b: Cell): int {
    match (a, b)
    case (Null, Null) => 0
    case (Null, Val(_)) => -1
    case (Val(_), Null) => 1
    case (Val(x), Val(y)) => (if x > y then 1 else 0) - (if x < y then 1 else 0)
  }

  /** `cmp_func`: the first key that differs decides, its sign turned if descending. */
  function Cmp(sorts: seq<Sort>, a: Row, b: Row): int {
    if sorts == [] then 0
    else
      var c := CmpCell(Get(a, sorts[0].key), Get(b, sorts[0].key));
      if c != 0 then (if sorts[0].ascending then c else -c) else Cmp(sorts[1..], a, b)
  }

  // ---------------------------------------------------------------- a total preorder

  lemma {:induction false} CmpAntisymmetric(sorts: seq<Sort>, a: Row, b: Row)
    ensures Cmp(sorts, a, b) == -Cmp(sorts, b, a)
  {
    if sorts != [] { CmpAntisymmetric(sorts[1..], a, b); }
  }

  lemma {:induction false} CmpTransitive(sorts: seq<Sort>, a: Row, b: Row, c: Row)
    requires Cmp(sorts, a, b) <= 0 && Cmp(sorts, b, c) <= 0
    ensures Cmp(sorts, a, c) <= 0
    ensures Cmp(sorts, a, b) < 0 || Cmp(sorts, b, c) < 0 ==> Cmp(sorts, a, c) < 0
  {
    if sorts != [] {
      var k := sorts[0].key;
      if CmpCell(Get(a, k), Get(b, k)) == 0 && CmpCell(Get(b, k), Get(c, k)) == 0 {
        CmpTransitive(sorts[1..], a, b, c);
      }
    }
  }

  /** A last key decides only between rows that the keys before it do not tell apart. */
  lemma {:induction false} CmpSnoc(sorts: seq<Sort>, last: Sort, a: Row, b: Row)
    ensures Cmp(sorts + [last], a, b) == if Cmp(sorts, a, b) != 0 then Cmp(sorts, a, b) else Cmp([last], a, b)
  {
    if sorts == [] {
      assert sorts + [last] == [last];
    } else {
      assert (sorts + [last])[1..] == sorts[1..] + [last];
      CmpSnoc(sorts[1..], last, a, b);
    }
  }

  lemma {:induction false} LastKeyBreaksTie(sorts: seq<Sort>, key: string, a: Row, b: Row)
    requires Get(a, key).Val? && Get(b, key).Val? && Cmp(sorts + [Sort(key, true)], a, b) < 0
    ensures Cmp(sorts, a, b) == 0 ==> Get(a, key).v < Get(b, key).v
  {
    CmpSnoc(sorts, Sort(key, true), a, b);
  }

  function Flip(sorts: seq<Sort>): (r: seq<Sort>)
    ensures |r| == |sorts|
  {
    seq(|sorts|, i requires 0 <= i < |sorts| => Sort(sorts[i].key, !sorts[i].ascending))
  }

  lemma {:induction false} FlipReverses(sorts: seq<Sort>, a: Row, b: Row)
    ensures Cmp(Flip(sorts), a, b) == Cmp(sorts, b, a)
  {
    if sorts != [] {
      assert Flip(sorts)[1..] == Flip(sorts[1..]);
      FlipReverses(sorts[1..], a, b);
    }
  }

  /** A key whose cells differ tells two rows apart, wherever it stands among the sort keys. */
  lemma {:induction false} KeyTellsApart(sorts: seq<Sort>, k: nat, a: Row, b: Row)
    requires k < |sorts| && Get(a, sorts[k].key) != Get(b, sorts[k].key)
    ensures Cmp(sorts, a, b) != 0
  {
    if k > 0 { KeyTellsApart(sorts[1..], k - 1, a, b); }
  }

  // ---------------------------------------------------------------- sorting

  ghost predicate Sorted(sorts: seq<Sort>, s: seq<Row>) {
    forall i, j :: 0 <= i < j < |s| ==> Cmp(sorts, s[i], s[j]) <= 0
  }

  /** By the first sort key NULLs come before all values and values in ascending order, or the whole
      the other way round if it is descending. */
  lemma FirstKeyOrder(sorts: seq<Sort>, s: seq<Row>, i: nat, j: nat)
    requires sorts != [] && i < j < |s| && Sorted(sorts, s)
    ensures var a, b := Get(s[i], sorts[0].key), Get(s[j], sorts[0].key);
            if sorts[0].ascending then a.Null? || (b.Val? && a.v <= b.v) else b.Null? || (a.Val? && a.v >= b.v)
  {
    assert Cmp(sorts, s[i], s[j]) <= 0;
  }

  ghost predicate StrictlySorted(sorts: seq<Sort>, s: seq<Row>) {
    forall i, j :: 0 <= i < j < |s| ==> Cmp(sorts, s[i], s[j]) < 0
  }

  /** The sort keys tell any two rows of the table apart. */
  ghost predicate Distinguishes(sorts: seq<Sort>, s: seq<Row>) {
    forall i, j :: 0 <= i < j < |s| ==> Cmp(sorts, s[i], s[j]) != 0
  }

  function Insert(sorts: seq<Sort>, x: Row, s: seq<Row>): (r: seq<Row>)
    ensures |r| == |s| + 1
  {
    if s == [] || Cmp(sorts, x, s[0]) <= 0 then [x] + s else [s[0]] + Insert(sorts, x, s[1..])
  }

  /** A stable sort. */
  function SortBy(sorts: seq<Sort>, s: seq<Row>): (r: seq<Row>)
    ensures |r| == |s|
  {
    if s == [] then [] else Insert(sorts, s[0], SortBy(sorts, s[1..]))
  }

  lemma {:induction false} InsertCounts(sorts: seq<Sort>, x: Row, s: seq<Row>)
    ensures multiset(Insert(sorts, x, s)) == multiset{x} + multiset(s)
  {
    if s != [] {
      assert s == [s[0]] + s[1..];
      if Cmp(sorts, x, s[0]) > 0 { InsertCounts(sorts, x, s[1..]); }
    }
  }

  /** What is at most (below) every element of `s` is at most (below) those of `Insert(x, s)`,
      if it is so for `x`. */
  lemma {:induction false} InsertBounded(sorts: seq<Sort>, h: Row, x: Row, s: seq<Row>, most: int)
    requires Cmp(sorts, h, x) <= most && forall j :: 0 <= j < |s| ==> Cmp(sorts, h, s[j]) <= most
    ensures forall j :: 0 <= j < |Insert(sorts, x, s)| ==> Cmp(sorts, h, Insert(sorts, x, s)[j]) <= most
  {
    var rest := Insert(sorts, x, s);
    InsertCounts(sorts, x, s);
    forall j | 0 <= j < |rest|
      ensures Cmp(sorts, h, rest[j]) <= most
    {
      var y := rest[j];
      assert y in multiset(rest);
      assert y == x || y in multiset(s);
    }
  }

  lemma {:induction false} InsertSorts(sorts: seq<Sort>, x: Row, s: seq<Row>)
    requires Sorted(sorts, s)
    ensures Sorted(sorts, Insert(sorts, x, s))
  {
    if s != [] {
      var h := s[0];
      if Cmp(sorts, x, h) <= 0 {
        forall j | 0 <= j < |s|
          ensures Cmp(sorts, x, s[j]) <= 0
        {
          if j > 0 { CmpTransitive(sorts, x, h, s[j]); }
        }
      } else {
        CmpAntisymmetric(sorts, x, h);
        InsertSorts(sorts, x, s[1..]);
        InsertBounded(sorts, h, x, s[1..], 0);
      }
    }
  }

  lemma {:induction false} SortBySorts(sorts: seq<Sort>, s: seq<Row>)
    ensures Sorted(sorts, SortBy(sorts, s))
    ensures multiset(SortBy(sorts, s)) == multiset(s)
  {
    if s != [] {
      SortBySorts(sorts, s[1..]);
      InsertSorts(sorts, s[0], SortBy(sorts, s[1..]));
      InsertCounts(sorts, s[0], SortBy(sorts, s[1..]));
      assert s == [s[0]] + s[1..];
    }
  }

  lemma SameHead(sorts: seq<Sort>, s: seq<Row>, t: seq<Row>)
    requires StrictlySorted(sorts, s) && StrictlySorted(sorts, t)
    requires multiset(s) == multiset(t) && s != [] && t != []
    ensures s[0] == t[0]
  {
    var x, y := s[0], t[0];
    assert x in multiset(t) && y in multiset(s);
    var j :| 0 <= j < |t| && t[j] == x;
    var k :| 0 <= k < |s| && s[k] == y;
    CmpAntisymmetric(sorts, x, y);
    assert j == 0 || Cmp(sorts, y, x) < 0;
    assert k == 0 || Cmp(sorts, x, y) < 0;
  }

  lemma TailCounts(s: seq<Row>)
    requires s != []
    ensures multiset(s[1..]) == multiset(s) - multiset{s[0]}
  {
    assert s == [s[0]] + s[1..];
  }

  /** Without keys the order is left as it is. */
  lemma {:induction false} SortByNothing(s: seq<Row>)
    ensures SortBy([], s) == s
  {
    if s != [] {
      SortByNothing(s[1..]);
      assert s == [s[0]] + s[1..];
    }
  }

  /** There is only one strictly sorted arrangement of a multiset of rows. */
  lemma {:induction false} SortedUnique(sorts: seq<Sort>, s: seq<Row>, t: seq<Row>)
    requires StrictlySorted(sorts, s) && StrictlySorted(sorts, t)
    requires multiset(s) == multiset(t)
    ensures s == t
  {
    assert |multiset(s)| == |s| && |multiset(t)| == |t|;
    if s != [] {
      SameHead(sorts, s, t);
      TailCounts(s);
      TailCounts(t);
      SortedUnique(sorts, s[1..], t[1..]);
      assert s == [s[0]] + s[1..] && t == [t[0]] + t[1..];
    }
  }

  /** Rows that are told apart stay so under permutation, so that sorting them is strict. */
  lemma {:induction false} InsertStrict(sorts: seq<Sort>, x: Row, s: seq<Row>)
    requires StrictlySorted(sorts, s)
    requires forall i :: 0 <= i < |s| ==> Cmp(sorts, x, s[i]) != 0
    ensures StrictlySorted(sorts, Insert(sorts, x, s))
  {
    if s != [] {
      var h := s[0];
      if Cmp(sorts, x, h) <= 0 {
        forall j | 0 <= j < |s|
          ensures Cmp(sorts, x, s[j]) < 0
        {
          if j > 0 { CmpTransitive(sorts, x, h, s[j]); }
        }
      } else {
        CmpAntisymmetric(sorts, x, h);
        InsertStrict(sorts, x, s[1..]);
        InsertBounded(sorts, h, x, s[1..], -1);
      }
    }
  }

  lemma {:induction false} SortByStrict(sorts: seq<Sort>, s: seq<Row>)
    requires Distinguishes(sorts, s)
    ensures StrictlySorted(sorts, SortBy(sorts, s))
  {
    if s != [] {
      var t := SortBy(sorts, s[1..]);
      SortByStrict(sorts, s[1..]);
      SortBySorts(sorts, s[1..]);
      forall i | 0 <= i < |t|
        ensures Cmp(sorts, s[0], t[i]) != 0
      {
        assert t[i] in multiset(s[1..]);
        var j :| 0 <= j < |s[1..]| && s[1..][j] == t[i];
        assert s[j + 1] == t[i];
      }
      InsertStrict(sorts, s[0], t);
    }
  }

  // ---------------------------------------------------------------- filtering and reversing

  function Filter(s: seq<Row>, keep: Row -> bool): seq<Row> {
    if s == [] then [] else (if keep(s[0]) then [s[0]] else []) + Filter(s[1..], keep)
  }

  lemma {:induction false} FilterCounts(s: seq<Row>, keep: Row -> bool, x: Row)
    ensures multiset(Filter(s, keep))[x] == if keep(x) then multiset(s)[x] else 0
  {
    if s != [] {
      assert s == [s[0]] + s[1..];
      FilterCounts(s[1..], keep, x);
    }
  }

  /** A filter commutes with reordering, counted with multiplicity. */
  lemma {:induction false} FilterPermuted(s: seq<Row>, t: seq<Row>, keep: Row -> bool)
    requires multiset(s) == multiset(t)
    ensures multiset(Filter(s, keep)) == multiset(Filter(t, keep))
  {
    forall x: Row
      ensures multiset(Filter(s, keep))[x] == multiset(Filter(t, keep))[x]
    {
      FilterCounts(s, keep, x);
      FilterCounts(t, keep, x);
    }
  }

  lemma {:induction false} FilterSuffix(s: seq<Row>, keep: Row -> bool, n: nat)
    requires n <= |s|
    requires forall i :: 0 <= i < |s| ==> (keep(s[i]) <==> n <= i)
    ensures Filter(s, keep) == s[n..]
  {
    if s != [] {
      if n == 0 {
        FilterSuffix(s[1..], keep, 0);
      } else {
        FilterSuffix(s[1..], keep, n - 1);
      }
    }
  }

  function Reverse(s: seq<Row>): (r: seq<Row>)
    ensures |r| == |s|
  {
    seq(|s|, i requires 0 <= i < |s| => s[|s| - 1 - i])
  }

  lemma {:induction false} ReverseCounts(s: seq<Row>)
    ensures multiset(Reverse(s)) == multiset(s)
  {
    if s != [] {
      ReverseCounts(s[1..]);
      assert Reverse(s) == Reverse(s[1..]) + [s[0]];
      assert s == [s[0]] + s[1..];
    }
  }

  /** Sorting with all directions flipped is sorting and reversing. */
  lemma {:induction false} FlippedSort(sorts: seq<Sort>, s: seq<Row>)
    requires Distinguishes(sorts, s)
    ensures SortBy(Flip(sorts), s) == Reverse(SortBy(sorts, s))
  {
    var t := SortBy(sorts, s);
    var r := Reverse(t);
    SortBySorts(sorts, s);
    SortByStrict(sorts, s);
    ReverseCounts(t);
    forall i, j | 0 <= i < j < |r|
      ensures Cmp(Flip(sorts), r[i], r[j]) < 0
    {
      FlipReverses(sorts, r[i], r[j]);
    }
    forall i, j | 0 <= i < j < |s|
      ensures Cmp(Flip(sorts), s[i], s[j]) != 0
    {
      FlipReverses(sorts, s[i], s[j]);
      CmpAntisymmetric(sorts, s[i], s[j]);
    }
    SortByStrict(Flip(sorts), s);
    SortBySorts(Flip(sorts), s);
    SortedUnique(Flip(sorts), SortBy(Flip(sorts), s), r);
  }

  /** `keep` selects the rows strictly after `m`. */
  ghost predicate KeepsAfter(sorts: seq<Sort>, m: Row, s: seq<Row>, keep: Row -> bool) {
    forall i :: 0 <= i < |s| ==> (keep(s[i]) <==> Cmp(sorts, m, s[i]) < 0)
  }

  lemma KeepsAfterPermuted(sorts: seq<Sort>, m: Row, s: seq<Row>, t: seq<Row>, keep: Row -> bool)
    requires KeepsAfter(sorts, m, s, keep) && multiset(s) == multiset(t)
    ensures KeepsAfter(sorts, m, t, keep)
  {
    forall j | 0 <= j < |t|
      ensures keep(t[j]) <==> Cmp(sorts, m, t[j]) < 0
    {
      assert t[j] in multiset(s);
      var i :| 0 <= i < |s| && s[i] == t[j];
    }
  }

  lemma {:induction false} SortedSuffix(sorts: seq<Sort>, t: seq<Row>, i: nat, keep: Row -> bool)
    requires StrictlySorted(sorts, t) && i < |t| && KeepsAfter(sorts, t[i], t, keep)
    ensures Filter(t, keep) == t[i + 1..]
  {
    forall j | 0 <= j < |t|
      ensures keep(t[j]) <==> i + 1 <= j
    {
      CmpAntisymmetric(sorts, t[i], t[j]);
    }
    FilterSuffix(t, keep, i + 1);
  }

  /** Keeping the rows strictly after the one at position i, in whatever order, and sorting
      them gives the rest of the sorted table. */
  lemma {:induction false} AfterIsSuffix(sorts: seq<Sort>, s: seq<Row>, t: seq<Row>, i: nat, keep: Row -> bool)
    requires Distinguishes(sorts, s) && t == SortBy(sorts, s) && i < |t|
    requires KeepsAfter(sorts, t[i], s, keep)
    ensures SortBy(sorts, Filter(s, keep)) == t[i + 1..]
  {
    SortBySorts(sorts, s);
    SortByStrict(sorts, s);
    KeepsAfterPermuted(sorts, t[i], s, t, keep);
    SortedSuffix(sorts, t, i, keep);
    FilterPermuted(s, t, keep);
    var f := Filter(s, keep);
    SortBySorts(sorts, f);
    FilterDistinguishes(sorts, s, keep);
    SortByStrict(sorts, f);
    SortedUnique(sorts, SortBy(sorts, f), t[i + 1..]);
  }

  lemma {:induction false} FilterDistinguishes(sorts: seq<Sort>, s: seq<Row>, keep: Row -> bool)
    requires Distinguishes(sorts, s)
    ensures Distinguishes(sorts, Filter(s, keep))
    ensures forall x :: x in Filter(s, keep) ==> x in s
  {
    if s != [] {
      FilterDistinguishes(sorts, s[1..], keep);
      var f := Filter(s[1..], keep);
      forall j | 0 <= j < |f|
        ensures Cmp(sorts, s[0], f[j]) != 0
      {
        assert f[j] in s[1..];
        var k :| 0 <= k < |s[1..]| && s[1..][k] == f[j];
        assert s[k + 1] == f[j];
      }
    }
  }
}
