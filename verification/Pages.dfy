/** Pages of a collection: the database's answer to a page request, the links offered with it and
    walks along those links. */
module Pages {
  import opened Common
  import opened Ordering
  import opened Keyset

  /** The sort keys tell the rows of the table apart and none of the cells they use is NULL. */
  ghost predicate Keyed(sorts: seq<Sort>, table: seq<Row>) {
    && sorts != []
    && Distinguishes(sorts, table)
    && forall i :: 0 <= i < |table| ==> NonNull(sorts, table[i])
  }

  ghost predicate UniqueIds(pk: string, table: seq<Row>) {
    forall i, j :: 0 <= i < j < |table| ==> Get(table[i], pk) != Get(table[j], pk)
  }

  /** The window of a sorted table that a page request means: up to `limit` rows next to
      position `pos`, after it or - for a previous page - before it. */
  function Window(s: seq<Row>, pos: Option<nat>, limit: nat, reverse: bool): seq<Row>
    requires pos.Some? ==> pos.value < |s|
  {
    if reverse then
      var end := if pos.Some? then pos.value else |s|;
      s[Max(0, end - limit)..end]
    else
      var start := if pos.Some? then pos.value + 1 else 0;
      s[start..Min(start + limit, |s|)]
  }

  // ---------------------------------------------------------------- the database's page

  datatype Answer = Items(rows: seq<Row>) | Error(failure: Failure)

  /** `_get_collection`: flip the directions for a previous page, query, reverse the result. */
  method GetCollection(model: Model, table: seq<Row>, sorts: seq<Sort>, limit: nat, marker: Option<Row>, reverse: bool)
    returns (a: Answer)
    ensures sorts != [] ==>
              (a.Items? <==> Sortable(model, sorts) && (limit == 0 || NamesPrimaryKey(model, sorts)))
    ensures sorts == [] ==> a == Items(if limit > 0 && reverse then Reverse(table) else table)
    ensures a.Items? && sorts != [] && limit == 0 && marker.None? ==> a.rows == SortBy(sorts, table)
    ensures a.Items? && Keyed(sorts, table) && limit > 0 && marker.None? ==>
              a.rows == Window(SortBy(sorts, table), None, limit, reverse)
    ensures a.Items? && Keyed(sorts, table) && limit > 0 && marker.Some? ==>
              forall i: nat :: i < |SortBy(sorts, table)| && SortBy(sorts, table)[i] == marker.value ==>
                a.rows == Window(SortBy(sorts, table), Some(i), limit, reverse)
  {
    var used := sorts;
    if limit > 0 && reverse && sorts != [] {
      used := Flip(sorts);
      FlipKeepsKeys(model, sorts);
    }
    var b := PaginateQuery(model, limit, used, marker);
    if b.Refused? {
      return Error(b.failure);
    }
    var items := Execute(b.query, table);
    if b.query.where_.None? {
      FilterSuffix(table, r => Selects(b.query, r), 0);
      if sorts == [] { SortByNothing(table); }
    }
    if Keyed(sorts, table) && limit > 0 {
      if reverse {
        FlipKeyed(sorts, table);
      }
      QueryWindow(b.query, used, table, marker);
      if reverse {
        FlippedSort(sorts, table);
        if marker.None? {
          FlippedWindow(SortBy(sorts, table), None, limit);
        } else {
          forall i: nat | i < |SortBy(sorts, table)| && SortBy(sorts, table)[i] == marker.value
            ensures Reverse(items) == Window(SortBy(sorts, table), Some(i), limit, true)
          {
            FlippedWindow(SortBy(sorts, table), Some(i), limit);
          }
        }
      }
    }
    if limit > 0 && reverse {
      items := Reverse(items);
    }
    return Items(items);
  }

  lemma FlipKeepsKeys(model: Model, sorts: seq<Sort>)
    ensures Sortable(model, Flip(sorts)) <==> Sortable(model, sorts)
    ensures NamesPrimaryKey(model, Flip(sorts)) <==> NamesPrimaryKey(model, sorts)
  {
    assert forall i :: 0 <= i < |sorts| ==> Flip(sorts)[i].key == sorts[i].key;
  }

  lemma FlipKeyed(sorts: seq<Sort>, table: seq<Row>)
    requires Keyed(sorts, table)
    ensures Keyed(Flip(sorts), table)
  {
    forall i, j | 0 <= i < j < |table|
      ensures Cmp(Flip(sorts), table[i], table[j]) != 0
    {
      FlipReverses(sorts, table[i], table[j]);
      CmpAntisymmetric(sorts, table[i], table[j]);
    }
  }

  /** The query answers with the window after its marker. */
  lemma {:induction false} QueryWindow(q: Query, sorts: seq<Sort>, table: seq<Row>, marker: Option<Row>)
    requires Keyed(sorts, table) && q.orderBy == sorts && q.limit > 0
    requires marker.None? ==> q.where_.None?
    requires marker.Some? && NonNull(sorts, marker.value) ==>
               forall r: Row :: NonNull(sorts, r) ==> (Selects(q, r) <==> Cmp(sorts, marker.value, r) < 0)
    ensures marker.None? ==> Execute(q, table) == Window(SortBy(sorts, table), None, q.limit, false)
    ensures marker.Some? ==>
              forall i: nat :: i < |SortBy(sorts, table)| && SortBy(sorts, table)[i] == marker.value ==>
                Execute(q, table) == Window(SortBy(sorts, table), Some(i), q.limit, false)
  {
    var t, keep := SortBy(sorts, table), r => Selects(q, r);
    if marker.None? {
      FilterSuffix(table, keep, 0);
    } else {
      forall i: nat | i < |t| && t[i] == marker.value
        ensures Execute(q, table) == Window(t, Some(i), q.limit, false)
      {
        SortedMember(sorts, table, i);
        assert NonNull(sorts, marker.value);
        SuffixWindow(q, sorts, table, i);
      }
    }
  }

  lemma {:induction false} SuffixWindow(q: Query, sorts: seq<Sort>, table: seq<Row>, i: nat)
    requires Keyed(sorts, table) && q.orderBy == sorts && q.limit > 0 && i < |table|
    requires forall r: Row :: NonNull(sorts, r) ==> (Selects(q, r) <==> Cmp(sorts, SortBy(sorts, table)[i], r) < 0)
    ensures Execute(q, table) == Window(SortBy(sorts, table), Some(i), q.limit, false)
  {
    var t, keep := SortBy(sorts, table), r => Selects(q, r);
    assert KeepsAfter(sorts, t[i], table, keep);
    AfterIsSuffix(sorts, table, t, i, keep);
    TakeWindow(t, i, q.limit);
  }

  lemma TakeWindow(t: seq<Row>, i: nat, limit: nat)
    requires i < |t| && limit > 0
    ensures Take(t[i + 1..], limit) == Window(t, Some(i), limit, false)
  {
    var rest := t[i + 1..];
    if |rest| > limit {
      assert rest[..limit] == t[i + 1..i + 1 + limit];
    }
  }

  lemma {:induction false} SortedMember(sorts: seq<Sort>, table: seq<Row>, i: nat)
    requires i < |SortBy(sorts, table)|
    ensures exists k :: 0 <= k < |table| && table[k] == SortBy(sorts, table)[i]
  {
    SortBySorts(sorts, table);
    assert SortBy(sorts, table)[i] in multiset(table);
  }

  /** Reading a window of the reversed table backwards gives the window on the other side. */
  lemma FlippedWindow(s: seq<Row>, pos: Option<nat>, limit: nat)
    requires pos.Some? ==> pos.value < |s|
    ensures pos.Some? ==> Reverse(s)[|s| - 1 - pos.value] == s[pos.value]
    ensures Reverse(Window(Reverse(s), if pos.Some? then Some(|s| - 1 - pos.value) else None, limit, false))
            == Window(s, pos, limit, true)
  {
    var start := if pos.Some? then |s| - pos.value else 0;
    ReverseSlice(s, start, Min(start + limit, |s|));
  }

  lemma ReverseSlice(s: seq<Row>, lo: nat, hi: nat)
    requires lo <= hi <= |s|
    ensures Reverse(Reverse(s)[lo..hi]) == s[|s| - hi..|s| - lo]
  {
  }

  // ---------------------------------------------------------------- links

  /** A link to another page: the id to put in `marker`, if any, and `page_reverse`. */
  datatype Link = Link(marker: Option<Cell>, reverse: bool)

  /** `get_pagination_links`. */
  function NextLink(items: seq<Row>, pk: string, limit: nat, reverse: bool): Option<Link> {
    if limit == 0 || (|items| < limit && !reverse) then None
    else Some(Link(if items == [] then None else Some(Get(items[|items| - 1], pk)), false))
  }

  function PreviousLink(items: seq<Row>, pk: string, limit: nat, reverse: bool): Option<Link> {
    if limit == 0 || (|items| < limit && reverse) then None
    else Some(Link(if items == [] then None else Some(Get(items[0], pk)), true))
  }

  /** `PaginationNativeHelper.update_args`: the primary key is appended unless already there. */
  function WithKey(sorts: seq<Sort>, pk: string): (r: seq<Sort>)
    ensures sorts <= r
    ensures exists i :: 0 <= i < |r| && r[i].key == pk
    ensures r == sorts <==> exists i :: 0 <= i < |sorts| && sorts[i].key == pk
  {
    if exists i :: 0 <= i < |sorts| && sorts[i].key == pk then sorts
    else
      var r := sorts + [Sort(pk, true)];
      assert r[|sorts|].key == pk;
      r
  }

  /** A unique key among the sort keys tells all rows apart. */
  lemma UniqueIdsDistinguish(sorts: seq<Sort>, pk: string, table: seq<Row>)
    requires UniqueIds(pk, table) && exists k :: 0 <= k < |sorts| && sorts[k].key == pk
    ensures Distinguishes(sorts, table)
  {
    var k :| 0 <= k < |sorts| && sorts[k].key == pk;
    forall i, j | 0 <= i < j < |table|
      ensures Cmp(sorts, table[i], table[j]) != 0
    {
      KeyTellsApart(sorts, k, table[i], table[j]);
    }
  }

  /** The row a marker id names. */
  method FindMarker(table: seq<Row>, pk: string, id: Cell) returns (r: Option<Row>)
    ensures r.Some? ==> r.value in table && Get(r.value, pk) == id
    ensures r.None? ==> forall i :: 0 <= i < |table| ==> Get(table[i], pk) != id
  {
    for i := 0 to |table|
      invariant forall k :: 0 <= k < i ==> Get(table[k], pk) != id
    {
      if Get(table[i], pk) == id {
        return Some(table[i]);
      }
    }
    return None;
  }

  lemma {:induction false} IdNamesOneRow(sorts: seq<Sort>, pk: string, table: seq<Row>, i: nat, r: Row)
    requires UniqueIds(pk, table) && i < |SortBy(sorts, table)|
    requires r in table && Get(r, pk) == Get(SortBy(sorts, table)[i], pk)
    ensures r == SortBy(sorts, table)[i]
  {
    SortedMember(sorts, table, i);
  }

  /** The collection as the API serves it: a model with the single primary key `pk`, a fixed
      table with unique ids and sort keys whose cells are not NULL. */
  ghost predicate Serves(model: Model, table: seq<Row>, sorts: seq<Sort>, pk: string) {
    && model.primaryKey == {pk} && Sortable(model, WithKey(sorts, pk)) && UniqueIds(pk, table)
    && forall i :: 0 <= i < |table| ==> NonNull(WithKey(sorts, pk), table[i])
  }

  /** The whole collection in the order it is served in. */
  function Listing(table: seq<Row>, sorts: seq<Sort>, pk: string): (s: seq<Row>)
    ensures |s| == |table|
  {
    SortBy(WithKey(sorts, pk), table)
  }

  /** The link whose marker is the row at position `pos` of the listing, or that has none. */
  function LinkAt(s: seq<Row>, pk: string, pos: Option<nat>, reverse: bool): Link
    requires pos.Some? ==> pos.value < |s|
  {
    Link(if pos.Some? then Some(Get(s[pos.value], pk)) else None, reverse)
  }

  /** One page request: look up the marker, fetch, offer links. */
  method Request(model: Model, table: seq<Row>, sorts: seq<Sort>, pk: string, limit: nat, link: Link,
                 ghost pos: Option<nat>)
    returns (items: seq<Row>, next: Option<Link>, previous: Option<Link>)
    requires Serves(model, table, sorts, pk) && limit > 0
    requires pos.Some? ==> pos.value < |table|
    requires link == LinkAt(Listing(table, sorts, pk), pk, pos, link.reverse)
    ensures items == Window(Listing(table, sorts, pk), pos, limit, link.reverse)
    ensures next == NextLink(items, pk, limit, link.reverse)
    ensures previous == PreviousLink(items, pk, limit, link.reverse)
  {
    var keys := WithKey(sorts, pk);
    var marker := None;
    if link.marker.Some? {
      SortedMember(keys, table, pos.value);
      marker := FindMarker(table, pk, link.marker.value);
      IdNamesOneRow(keys, pk, table, pos.value, marker.value);
    }
    var a := GetCollection(model, table, keys, limit, marker, link.reverse);
    assert NamesPrimaryKey(model, keys);
    items := a.rows;
    UniqueIdsDistinguish(keys, pk, table);
    next := NextLink(items, pk, limit, link.reverse);
    previous := PreviousLink(items, pk, limit, link.reverse);
  }

  // ---------------------------------------------------------------- walks

  /** The position just before row r. */
  function Behind(r: nat): Option<nat> { if r == 0 then None else Some(r - 1) }

  /** The page behind row r, and the link it comes with. */
  lemma ForwardStep(s: seq<Row>, r: nat, pk: string, limit: nat)
    requires r <= |s| && limit > 0
    ensures var items := Window(s, Behind(r), limit, false);
            var next := NextLink(items, pk, limit, false);
            && s[..r] + items == s[..r + |items|]
            && |items| == Min(limit, |s| - r)
            && (next.None? <==> |s| - r < limit)
            && (next.Some? ==> next.value == LinkAt(s, pk, Some(r + limit - 1), false))
            && (items != [] ==> PreviousLink(items, pk, limit, false) == Some(LinkAt(s, pk, Some(r), true)))
  {
    assert Window(s, Behind(r), limit, false) == s[r..Min(r + limit, |s|)];
  }

  /** Following "next" from the first page until none is offered returns exactly the sorted
      table, every row once and in order, in n / limit + 1 requests. */
  method FollowNext(model: Model, table: seq<Row>, sorts: seq<Sort>, pk: string, limit: nat)
    returns (rows: seq<Row>, requests: nat)
    requires Serves(model, table, sorts, pk) && limit > 0
    ensures rows == Listing(table, sorts, pk)
    ensures requests == |table| / limit + 1
  {
    ghost var s := Listing(table, sorts, pk);
    var link := Link(None, false);
    rows, requests := [], 0;
    while true
      invariant |rows| <= |s| && rows == s[..|rows|]
      invariant link == LinkAt(s, pk, Behind(|rows|), false)
      invariant requests + PageCount(|s| - |rows|, limit) == PageCount(|s|, limit)
      decreases |s| - |rows|
    {
      var items, next, previous := PageBehind(model, table, sorts, pk, limit, link, |rows|);
      rows := rows + items;
      requests := requests + 1;
      if next.None? {
        CountsPages(|s|, limit);
        return;
      }
      link := next.value;
    }
  }

  /** The forward page behind the first r rows, seen as part of the walk. */
  method PageBehind(model: Model, table: seq<Row>, sorts: seq<Sort>, pk: string, limit: nat, link: Link, ghost r: nat)
    returns (items: seq<Row>, next: Option<Link>, previous: Option<Link>)
    requires Serves(model, table, sorts, pk) && limit > 0 && r <= |table|
    requires link == LinkAt(Listing(table, sorts, pk), pk, Behind(r), false)
    ensures |items| == Min(limit, |table| - r)
    ensures Listing(table, sorts, pk)[..r] + items == Listing(table, sorts, pk)[..r + |items|]
    ensures next.None? <==> |table| - r < limit
    ensures next.Some? ==> next.value == LinkAt(Listing(table, sorts, pk), pk, Behind(r + limit), false)
    ensures items != [] ==> previous == Some(LinkAt(Listing(table, sorts, pk), pk, Some(r), true))
  {
    items, next, previous := Request(model, table, sorts, pk, limit, link, Behind(r));
    ForwardStep(Listing(table, sorts, pk), r, pk, limit);
  }

  /** The requests it takes to see n rows and be told that there are no more. */
  ghost function PageCount(n: nat, limit: nat): nat
    requires limit > 0
  {
    if n < limit then 1 else 1 + PageCount(n - limit, limit)
  }

  lemma {:induction false} CountsPages(n: nat, limit: nat)
    requires limit > 0
    ensures PageCount(n, limit) == n / limit + 1
  {
    if n < limit {
      DivUnique(n, limit, 0);
    } else {
      CountsPages(n - limit, limit);
      DivStep(n, limit);
    }
  }

  lemma MulMonotone(a: int, b: int, l: int)
    requires a <= b && l > 0
    ensures a * l <= b * l
  {
  }

  lemma DivUnique(x: int, l: int, q: int)
    requires l > 0 && q * l <= x < q * l + l
    ensures x / l == q
  {
    var d := x / l;
    assert d * l <= x < d * l + l;
    if d < q { MulMonotone(d + 1, q, l); }
    if q < d { MulMonotone(q + 1, d, l); }
  }

  lemma DivStep(x: int, l: int)
    requires l > 0
    ensures x / l == (x - l) / l + 1
  {
    var q := (x - l) / l;
    assert q * l <= x - l < q * l + l;
    assert (q + 1) * l == q * l + l;
    DivUnique(x, l, q + 1);
  }

  lemma RestOfPrefix(s: seq<Row>, r: nat, items: seq<Row>)
    requires r + |items| <= |s| && s[..r] + items == s[..r + |items|]
    ensures items == s[r..r + |items|]
  {
    assert items == (s[..r] + items)[r..];
  }

  /** A full page from row r on, its non-empty successor, and then "previous": the original page
      again. */
  method NextThenPrevious(model: Model, table: seq<Row>, sorts: seq<Sort>, pk: string, limit: nat, r: nat)
    returns (page: seq<Row>, following: seq<Row>, back: seq<Row>)
    requires Serves(model, table, sorts, pk) && limit > 0
    requires r + limit < |table|
    ensures page == Listing(table, sorts, pk)[r..r + limit] && following != []
    ensures back == page
  {
    ghost var s := Listing(table, sorts, pk);
    var first := LinkAt(Listing(table, sorts, pk), pk, Behind(r), false);
    var next, previous;
    page, next, previous := PageBehind(model, table, sorts, pk, limit, first, r);
    RestOfPrefix(s, r, page);
    following, back := ThereAndBack(model, table, sorts, pk, limit, next.value, r + limit);
  }

  /** The page behind the first r rows, and then "previous". */
  method ThereAndBack(model: Model, table: seq<Row>, sorts: seq<Sort>, pk: string, limit: nat, link: Link,
                      ghost r: nat)
    returns (following: seq<Row>, back: seq<Row>)
    requires Serves(model, table, sorts, pk) && 0 < limit <= r < |table|
    requires link == LinkAt(Listing(table, sorts, pk), pk, Behind(r), false)
    ensures following != [] && back == Listing(table, sorts, pk)[r - limit..r]
  {
    var next, previous;
    following, next, previous := PageBehind(model, table, sorts, pk, limit, link, r);
    back, next, previous := PageBefore(model, table, sorts, pk, limit, previous.value, r);
  }

  /** The position at row r, or none past the last row. */
  function InFrontOf(r: nat, n: nat): Option<nat> { if r < n then Some(r) else None }

  /** The page in front of row r, and the links it comes with: "previous" goes on in front of it,
      "next" to the rows right after it. */
  lemma BackwardStep(s: seq<Row>, r: nat, pk: string, limit: nat)
    requires r <= |s| && limit > 0
    ensures var items := Window(s, InFrontOf(r, |s|), limit, true);
            var previous, next := PreviousLink(items, pk, limit, true), NextLink(items, pk, limit, true);
            && items == s[Max(0, r - limit)..r]
            && (previous.None? <==> r < limit)
            && (previous.Some? ==> previous.value == LinkAt(s, pk, Some(r - limit), true))
            && next == Some(LinkAt(s, pk, Behind(r), false))
  {
  }

  /** The previous page in front of row r, seen as part of the walk. */
  method PageBefore(model: Model, table: seq<Row>, sorts: seq<Sort>, pk: string, limit: nat, link: Link, ghost r: nat)
    returns (items: seq<Row>, next: Option<Link>, previous: Option<Link>)
    requires Serves(model, table, sorts, pk) && limit > 0 && r <= |table|
    requires link == LinkAt(Listing(table, sorts, pk), pk, InFrontOf(r, |table|), true)
    ensures items == Listing(table, sorts, pk)[Max(0, r - limit)..r]
    ensures previous.None? <==> r < limit
    ensures previous.Some? ==> previous.value == LinkAt(Listing(table, sorts, pk), pk, Some(r - limit), true)
    ensures next == Some(LinkAt(Listing(table, sorts, pk), pk, Behind(r), false))
  {
    items, next, previous := Request(model, table, sorts, pk, limit, link, InFrontOf(r, |table|));
    BackwardStep(Listing(table, sorts, pk), r, pk, limit);
  }

  /** Following "previous" from the last page until none is offered, and putting the pages in front
      of each other, returns exactly the sorted table as well, in n / limit + 1 requests. */
  method FollowPrevious(model: Model, table: seq<Row>, sorts: seq<Sort>, pk: string, limit: nat)
    returns (rows: seq<Row>, requests: nat)
    requires Serves(model, table, sorts, pk) && limit > 0
    ensures rows == Listing(table, sorts, pk)
    ensures requests == |table| / limit + 1
  {
    ghost var s := Listing(table, sorts, pk);
    ghost var r: nat := |s|;
    var link := Link(None, true);
    rows, requests := [], 0;
    while true
      invariant r <= |s| && rows == s[r..]
      invariant link == LinkAt(s, pk, InFrontOf(r, |s|), true)
      invariant requests + PageCount(r, limit) == PageCount(|s|, limit)
      decreases r
    {
      var items, next, previous := PageBefore(model, table, sorts, pk, limit, link, r);
      PutInFront(s, Max(0, r - limit), r);
      rows := items + rows;
      requests := requests + 1;
      if previous.None? {
        CountsPages(|s|, limit);
        return;
      }
      link := previous.value;
      r := r - limit;
    }
  }

  lemma PutInFront(s: seq<Row>, lo: nat, hi: nat)
    requires lo <= hi <= |s|
    ensures s[lo..hi] + s[hi..] == s[lo..]
  {
  }

  /** The page in front of row r and then "next": the rows from r on. */
  method PreviousThenNext(model: Model, table: seq<Row>, sorts: seq<Sort>, pk: string, limit: nat, link: Link, r: nat)
    returns (page: seq<Row>, following: seq<Row>)
    requires Serves(model, table, sorts, pk) && limit > 0 && r <= |table|
    requires link == LinkAt(Listing(table, sorts, pk), pk, InFrontOf(r, |table|), true)
    ensures page == Listing(table, sorts, pk)[Max(0, r - limit)..r]
    ensures following == Listing(table, sorts, pk)[r..Min(r + limit, |table|)]
  {
    var next, previous;
    page, next, previous := PageBefore(model, table, sorts, pk, limit, link, r);
    following, next, previous := PageBehind(model, table, sorts, pk, limit, next.value, r);
    RestOfPrefix(Listing(table, sorts, pk), r, following);
  }

  // ---------------------------------------------------------------- the order of a listing

  /** Rows that the given sorts do not tell apart are served by ascending id - so all rows, if no sorts
      are given. */
  lemma {:induction false} TiesComeById(table: seq<Row>, sorts: seq<Sort>, pk: string, i: nat, j: nat)
    requires UniqueIds(pk, table) && i < j < |table|
    requires forall k :: 0 <= k < |sorts| ==> sorts[k].key != pk
    requires forall k :: 0 <= k < |table| ==> Get(table[k], pk).Val?
    ensures var a, b := Listing(table, sorts, pk)[i], Listing(table, sorts, pk)[j];
            Cmp(sorts, a, b) == 0 ==> Get(a, pk).Val? && Get(b, pk).Val? && Get(a, pk).v < Get(b, pk).v
  {
    var keys, s := WithKey(sorts, pk), Listing(table, sorts, pk);
    UniqueIdsDistinguish(keys, pk, table);
    SortByStrict(keys, table);
    SortedMember(keys, table, i);
    SortedMember(keys, table, j);
    LastKeyBreaksTie(sorts, pk, s[i], s[j]);
  }
}
