/** Keyset pagination: the query that `paginate_query` builds or refuses, and the rows that its
    criterion selects. */
module Keyset {
  import opened Common
  import opened Ordering

  // ---------------------------------------------------------------- queries

  /** One comparison of a column with a marker value; as in SQL none holds of NULL. */
  datatype Cond = Equal(col: string, cell: Cell) | Greater(col: string, cell: Cell) | Less(col: string, cell: Cell)

  predicate Holds(c: Cond, r: Row) {
    var x := Get(r, c.col);
    && x.Val? && c.cell.Val?
    && match c
       case Equal(_, _) => x.v == c.cell.v
       case Greater(_, _) => x.v > c.cell.v
       case Less(_, _) => x.v < c.cell.v
  }

  predicate AllHold(conds: seq<Cond>, r: Row) { forall j :: 0 <= j < |conds| ==> Holds(conds[j], r) }

  /** WHERE as an OR of ANDs, or absent; ORDER BY; LIMIT, 0 meaning none. */
  datatype Query = Query(where_: Option<seq<seq<Cond>>>, orderBy: seq<Sort>, limit: nat)

  predicate Selects(q: Query, r: Row) {
    q.where_.None? || exists i :: 0 <= i < |q.where_.value| && AllHold(q.where_.value[i], r)
  }

  function Take(s: seq<Row>, limit: nat): seq<Row> {
    if limit == 0 || |s| <= limit then s else s[..limit]
  }

  /** What the database answers. */
  function Execute(q: Query, table: seq<Row>): seq<Row> {
    Take(SortBy(q.orderBy, Filter(table, r => Selects(q, r))), q.limit)
  }

  /** A model class: its plain columns, its relationship attributes and its primary key. */
  datatype Model = Model(columns: set<string>, relationships: set<string>, primaryKey: set<string>)

  datatype Failure = AssertionError | BadRequest(key: string)

  datatype Built = Built(query: Query) | Refused(failure: Failure)

  ghost predicate Sortable(model: Model, sorts: seq<Sort>) {
    forall i :: 0 <= i < |sorts| ==> sorts[i].key in model.columns && sorts[i].key !in model.relationships
  }

  ghost predicate NamesPrimaryKey(model: Model, sorts: seq<Sort>) {
    exists i :: 0 <= i < |sorts| && sorts[i].key in model.primaryKey
  }

  /** None of the sort cells of the row is NULL. */
  ghost predicate NonNull(sorts: seq<Sort>, r: Row) {
    forall i :: 0 <= i < |sorts| ==> Get(r, sorts[i].key).Val?
  }

  /** Equal to the marker on the first i keys and strictly after it on the next. */
  ghost predicate BreaksTieAt(sorts: seq<Sort>, m: Row, r: Row, i: nat)
    requires i < |sorts|
  {
    && (forall j :: 0 <= j < i ==> Get(r, sorts[j].key) == Get(m, sorts[j].key))
    && var c := CmpCell(Get(m, sorts[i].key), Get(r, sorts[i].key));
       if sorts[i].ascending then c < 0 else c > 0
  }

  /** Lexicographic order, unrolled: a row is after the marker iff some key breaks the tie. */
  lemma {:induction false} AfterIffBreaksTie(sorts: seq<Sort>, m: Row, r: Row)
    ensures Cmp(sorts, m, r) < 0 <==> exists i :: 0 <= i < |sorts| && BreaksTieAt(sorts, m, r, i)
  {
    if sorts != [] {
      var rest := sorts[1..];
      AfterIffBreaksTie(rest, m, r);
      var c := CmpCell(Get(m, sorts[0].key), Get(r, sorts[0].key));
      if c == 0 {
        assert Get(r, sorts[0].key) == Get(m, sorts[0].key);
        if i :| 0 <= i < |rest| && BreaksTieAt(rest, m, r, i) {
          forall j | 0 <= j < i + 1
            ensures Get(r, sorts[j].key) == Get(m, sorts[j].key)
          {
            assert j > 0 ==> rest[j - 1] == sorts[j];
          }
          assert BreaksTieAt(sorts, m, r, i + 1);
        }
        if i :| 0 <= i < |sorts| && BreaksTieAt(sorts, m, r, i) {
          assert i > 0;
          forall j | 0 <= j < i - 1
            ensures Get(r, rest[j].key) == Get(m, rest[j].key)
          {
            assert rest[j] == sorts[j + 1];
          }
          assert BreaksTieAt(rest, m, r, i - 1);
        }
      } else {
        assert BreaksTieAt(sorts, m, r, 0) <==> Cmp(sorts, m, r) < 0;
      }
    }
  }

  /** One AND of the criterion, as the loop builds it. */
  function Clause(sorts: seq<Sort>, m: Row, i: nat): seq<Cond>
    requires i < |sorts|
  {
    seq(i, j requires 0 <= j < i => Equal(sorts[j].key, Get(m, sorts[j].key)))
    + [if sorts[i].ascending then Greater(sorts[i].key, Get(m, sorts[i].key))
       else Less(sorts[i].key, Get(m, sorts[i].key))]
  }

  lemma ClauseBreaksTie(sorts: seq<Sort>, m: Row, r: Row, i: nat)
    requires i < |sorts| && NonNull(sorts, m) && NonNull(sorts, r)
    ensures AllHold(Clause(sorts, m, i), r) <==> BreaksTieAt(sorts, m, r, i)
  {
    var conds := Clause(sorts, m, i);
    if AllHold(conds, r) {
      assert Holds(conds[i], r);
      forall j | 0 <= j < i
        ensures Get(r, sorts[j].key) == Get(m, sorts[j].key)
      {
        assert Holds(conds[j], r);
      }
    }
  }

  /** The criterion `paginate_query` builds holds exactly of the rows strictly after the
      marker, under any mix of ascending and descending keys. */
  lemma {:induction false} CriterionIsAfter(sorts: seq<Sort>, m: Row, criteria: seq<seq<Cond>>, q: Query, r: Row)
    requires NonNull(sorts, m) && NonNull(sorts, r)
    requires |criteria| == |sorts| && forall i :: 0 <= i < |sorts| ==> criteria[i] == Clause(sorts, m, i)
    requires q.where_ == Some(criteria)
    ensures Selects(q, r) <==> Cmp(sorts, m, r) < 0
  {
    forall i | 0 <= i < |sorts|
      ensures AllHold(criteria[i], r) <==> BreaksTieAt(sorts, m, r, i)
    {
      ClauseBreaksTie(sorts, m, r, i);
    }
    AfterIffBreaksTie(sorts, m, r);
  }

  method PaginateQuery(model: Model, limit: nat, sorts: seq<Sort>, marker: Option<Row>) returns (b: Built)
    ensures sorts == [] ==> b == Built(Query(None, [], 0))
    ensures sorts != [] ==> (b.Built? <==> Sortable(model, sorts) && (limit == 0 || NamesPrimaryKey(model, sorts)))
    ensures sorts != [] && limit > 0 && !NamesPrimaryKey(model, sorts) ==> b == Refused(AssertionError)
    ensures sorts != [] && (limit == 0 || NamesPrimaryKey(model, sorts)) && b.Refused? ==>
              exists i :: 0 <= i < |sorts| && b == Refused(BadRequest(sorts[i].key))
                && Sortable(model, sorts[..i]) && !Sortable(model, sorts[..i + 1])
    ensures sorts != [] && b.Built? ==> b.query.orderBy == sorts && b.query.limit == limit
    ensures sorts != [] && b.Built? && marker.None? ==> b.query.where_.None?
    ensures sorts != [] && b.Built? && marker.Some? && NonNull(sorts, marker.value) ==>
              forall r: Row :: NonNull(sorts, r) ==> (Selects(b.query, r) <==> Cmp(sorts, marker.value, r) < 0)
  {
    if sorts == [] {
      return Built(Query(None, [], 0));
    }
    var named := false;
    for i := 0 to |sorts|
      invariant named <==> exists k :: 0 <= k < i && sorts[k].key in model.primaryKey
    {
      named := named || sorts[i].key in model.primaryKey;
    }
    if limit > 0 && !named {
      return Refused(AssertionError);
    }
    var query := Query(None, [], 0);
    for i := 0 to |sorts|
      invariant query == Query(None, sorts[..i], 0)
      invariant Sortable(model, sorts[..i])
    {
      if sorts[i].key !in model.columns || sorts[i].key in model.relationships {
        assert sorts[..i + 1][i] == sorts[i];
        return Refused(BadRequest(sorts[i].key));
      }
      query := query.(orderBy := query.orderBy + [sorts[i]]);
    }
    assert sorts[..|sorts|] == sorts;
    if marker.Some? {
      var criteria: seq<seq<Cond>> := [];
      for i := 0 to |sorts|
        invariant |criteria| == i
        invariant forall k :: 0 <= k < i ==> criteria[k] == Clause(sorts, marker.value, k)
      {
        var conds := seq(i, j requires 0 <= j < i => Equal(sorts[j].key, Get(marker.value, sorts[j].key)));
        if sorts[i].ascending {
          conds := conds + [Greater(sorts[i].key, Get(marker.value, sorts[i].key))];
        } else {
          conds := conds + [Less(sorts[i].key, Get(marker.value, sorts[i].key))];
        }
        criteria := criteria + [conds];
      }
      query := query.(where_ := Some(criteria));
      if NonNull(sorts, marker.value) {
        forall r: Row | NonNull(sorts, r)
          ensures Selects(query.(limit := limit), r) <==> Cmp(sorts, marker.value, r) < 0
        {
          CriterionIsAfter(sorts, marker.value, criteria, query.(limit := limit), r);
        }
      }
    }
    if limit > 0 {
      query := query.(limit := limit);
    }
    return Built(query);
  }
}
