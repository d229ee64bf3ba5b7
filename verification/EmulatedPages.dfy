/** Pagination emulated in memory: sort the whole list, find the marker, slice. */
module EmulatedPages {
  import opened Common
  import opened Ordering
  import opened Keyset
  import opened Pages

  /** Where a Python slice bound falls in a list of n elements: negative bounds count from the
      end, and all are cut to the list. */
  function Bound(x: int, n: nat): nat {
    if x < 0 then Max(0, x + n) else Min(x, n)
  }

  /** Python's `s[a:b]`. */
  function Slice(s: seq<Row>, a: int, b: int): seq<Row> {
    var lo, hi := Bound(a, |s|), Bound(b, |s|);
    if lo <= hi then s[lo..hi] else []
  }

  /** Where the search leaves its index: at the first item with the marker's id, at the last
      item if there is none, before the list if there is no marker. */
  ghost predicate SearchEndsAt(items: seq<Row>, pk: string, marker: Option<Cell>, i: int) {
    if marker.None? then i == -1
    else
      && -1 <= i < |items|
      && (forall k :: 0 <= k < i ==> Get(items[k], pk) != marker.value)
      && (i < |items| - 1 ==> i >= 0 && Get(items[i], pk) == marker.value)
  }

  /** `PaginationEmulatedHelper.paginate`. */
  method Paginate(items: seq<Row>, pk: string, limit: nat, marker: Option<Cell>, reverse: bool)
    returns (page: seq<Row>)
    ensures limit == 0 ==> page == items
    ensures limit > 0 ==>
              exists i: int :: SearchEndsAt(items, pk, marker, i)
                && page == if reverse then Slice(items, i - limit, i) else Slice(items, i + 1, i + limit + 1)
  {
    if limit == 0 {
      return items;
    }
    var i := -1;
    if marker.Some? {
      for k := 0 to |items|
        invariant i == k - 1
        invariant forall j :: 0 <= j < k ==> Get(items[j], pk) != marker.value
      {
        i := i + 1;
        if Get(items[k], pk) == marker.value {
          break;
        }
      }
    }
    assert SearchEndsAt(items, pk, marker, i);
    if reverse {
      page := Slice(items, i - limit, i);
    } else {
      page := Slice(items, i + 1, i + limit + 1);
    }
  }

  /** Sorting and slicing in memory gives the window after a marker that exists, and the first
      window without one. */
  method ForwardPage(table: seq<Row>, sorts: seq<Sort>, pk: string, limit: nat, link: Link, ghost pos: Option<nat>)
    returns (page: seq<Row>)
    requires UniqueIds(pk, table) && limit > 0 && !link.reverse
    requires pos.Some? ==> pos.value < |table|
    requires link == LinkAt(SortBy(sorts, table), pk, pos, false)
    ensures page == Window(SortBy(sorts, table), pos, limit, false)
  {
    var items := SortBy(sorts, table);
    page := Paginate(items, pk, limit, link.marker, false);
    ghost var i: int :| SearchEndsAt(items, pk, link.marker, i) && page == Slice(items, i + 1, i + limit + 1);
    if pos.Some? {
      SearchFinds(sorts, table, pk, pos.value, i);
    }
  }

  /** Where sorting names the primary key, the page sliced in memory is the page that the database's
      keyset query serves for the same link. */
  method SameForwardPage(model: Model, table: seq<Row>, sorts: seq<Sort>, pk: string, limit: nat, link: Link,
                         ghost pos: Option<nat>)
    returns (sliced: seq<Row>, queried: seq<Row>)
    requires Serves(model, table, sorts, pk) && limit > 0 && !link.reverse
    requires exists i :: 0 <= i < |sorts| && sorts[i].key == pk
    requires pos.Some? ==> pos.value < |table|
    requires link == LinkAt(Listing(table, sorts, pk), pk, pos, false)
    ensures sliced == queried == Window(Listing(table, sorts, pk), pos, limit, false)
  {
    sliced := ForwardPage(table, sorts, pk, limit, link, pos);
    var next, previous;
    queried, next, previous := Request(model, table, sorts, pk, limit, link, pos);
  }

  lemma {:induction false} SearchFinds(sorts: seq<Sort>, table: seq<Row>, pk: string, pos: nat, i: int)
    requires UniqueIds(pk, table) && pos < |table|
    requires SearchEndsAt(SortBy(sorts, table), pk, Some(Get(SortBy(sorts, table)[pos], pk)), i)
    ensures i == pos
  {
    var s := SortBy(sorts, table);
    assert i <= pos;
    if i < pos {
      SortedKeepsIdsUnique(sorts, table, pk, i, pos);
    }
  }

  /** Two positions of the sorted list hold different ids. */
  lemma {:induction false} SortedKeepsIdsUnique(sorts: seq<Sort>, table: seq<Row>, pk: string, i: nat, j: nat)
    requires UniqueIds(pk, table) && i < j < |table|
    ensures Get(SortBy(sorts, table)[i], pk) != Get(SortBy(sorts, table)[j], pk)
  {
    var s := SortBy(sorts, table);
    SortBySorts(sorts, table);
    if Get(s[i], pk) == Get(s[j], pk) {
      SortedMember(sorts, table, i);
      SortedMember(sorts, table, j);
      assert s[i] == s[j];
      TwiceCountsTwice(s, i, j);
      OnceCountsOnce(table, pk, s[i]);
    }
  }

  lemma TwiceCountsTwice(s: seq<Row>, i: nat, j: nat)
    requires i < j < |s| && s[i] == s[j]
    ensures multiset(s)[s[i]] >= 2
  {
    assert s == s[..j] + [s[j]] + s[j + 1..];
    assert s[i] in s[..j];
  }

  lemma {:induction false} OnceCountsOnce(table: seq<Row>, pk: string, r: Row)
    requires UniqueIds(pk, table)
    ensures multiset(table)[r] <= 1
  {
    if table != [] {
      var rest := table[1..];
      assert table == [table[0]] + rest;
      OnceCountsOnce(rest, pk, r);
      assert forall k :: 0 <= k < |rest| ==> rest[k] == table[k + 1] && rest[k] != table[0];
    }
  }

  /** When slicing with a possibly negative start gives the previous page it is meant to give. */
  ghost predicate ReverseSliceSafe(n: nat, pos: Option<nat>, limit: nat) {
    if pos.None? then n == 0 else limit <= pos.value || pos.value == 0 || n + pos.value <= limit
  }

  lemma ReverseSliceIff(s: seq<Row>, pos: nat, limit: nat)
    requires pos < |s| && limit > 0
    ensures Slice(s, pos - limit, pos) == Window(s, Some(pos), limit, true)
            <==> ReverseSliceSafe(|s|, Some(pos), limit)
  {
    if !ReverseSliceSafe(|s|, Some(pos), limit) {
      assert |Window(s, Some(pos), limit, true)| == pos;
      assert |Slice(s, pos - limit, pos)| < pos;
    }
  }

  /** Without a marker the slice ends before the last row. */
  lemma ReverseSliceFromEndIff(s: seq<Row>, limit: nat)
    requires limit > 0
    requires |s| >= 2 ==> s[|s| - 2] != s[|s| - 1]
    ensures Slice(s, -1 - limit, -1) == Window(s, None, limit, true) <==> s == []
  {
    if s != [] {
      var w, e := Window(s, None, limit, true), Slice(s, -1 - limit, -1);
      assert w[|w| - 1] == s[|s| - 1];
      if e != [] { assert e[|e| - 1] == s[|s| - 2]; }
    }
  }

  /** For previous pages the two agree exactly when the marker stands at least `limit` rows into
      the list, or first, or `limit` is so large that Python's negative start is cut to 0 as
      well; without a marker, only on the empty list. Otherwise the start counts from the end of
      the list, or the end stops short of the last row. */
  method ReversePage(table: seq<Row>, sorts: seq<Sort>, pk: string, limit: nat, link: Link, ghost pos: Option<nat>)
    returns (page: seq<Row>)
    requires UniqueIds(pk, table) && limit > 0 && link.reverse
    requires pos.Some? ==> pos.value < |table|
    requires link == LinkAt(SortBy(sorts, table), pk, pos, true)
    ensures page == Window(SortBy(sorts, table), pos, limit, true) <==> ReverseSliceSafe(|table|, pos, limit)
  {
    var items := SortBy(sorts, table);
    page := Paginate(items, pk, limit, link.marker, true);
    ghost var i: int :| SearchEndsAt(items, pk, link.marker, i) && page == Slice(items, i - limit, i);
    if pos.Some? {
      SearchFinds(sorts, table, pk, pos.value, i);
      ReverseSliceIff(items, pos.value, limit);
    } else {
      if |items| >= 2 {
        SortedKeepsIdsUnique(sorts, table, pk, |items| - 2, |items| - 1);
      }
      ReverseSliceFromEndIff(items, limit);
    }
  }
}
