/** `ORDER BY created_at DESC` over the rows of the table: the list queries return their rows newest first. */
module Ordering {
  import opened Models

  /** The `tasks` table, keyed by its primary key. */
  type Table = map<Uuid, Task>

  /** `a` may be listed before `b`: it was created later, or at the same instant. The database leaves the order of
      equal timestamps open; the model settles it by the larger id, which is one order the query may return. */
  predicate Ahead(rows: Table, a: Uuid, b: Uuid)
    requires a in rows && b in rows
  {
    Earlier(rows[b].createdAt, rows[a].createdAt) || (rows[a].createdAt == rows[b].createdAt && a >= b)
  }

  lemma AheadTotal(rows: Table, a: Uuid, b: Uuid)
    requires a in rows && b in rows
    ensures Ahead(rows, a, b) || Ahead(rows, b, a)
    ensures Ahead(rows, a, b) && Ahead(rows, b, a) ==> a == b
  {
    EarlierIsStrictTotal(rows[a].createdAt, rows[b].createdAt);
  }

  lemma AheadTransitive(rows: Table, a: Uuid, b: Uuid, c: Uuid)
    requires a in rows && b in rows && c in rows
    requires Ahead(rows, a, b) && Ahead(rows, b, c)
    ensures Ahead(rows, a, c)
  {
  }

  /** `k` is the row of `ids` that the listing puts first. */
  predicate IsFirst(rows: Table, ids: set<Uuid>, k: Uuid)
    requires ids <= rows.Keys
  {
    k in ids && forall j :: j in ids ==> Ahead(rows, k, j)
  }

  lemma {:induction false} FirstExists(rows: Table, ids: set<Uuid>)
    requires ids <= rows.Keys && ids != {}
    ensures exists k :: IsFirst(rows, ids, k)
    decreases ids
  {
    var x :| x in ids;
    if ids == {x} {
      assert IsFirst(rows, ids, x);
    } else {
      var rest := ids - {x};
      FirstExists(rows, rest);
      var y :| IsFirst(rows, rest, y);
      AheadTotal(rows, x, y);
      if Ahead(rows, x, y) {
        forall j | j in ids
          ensures Ahead(rows, x, j)
        {
          if j != x {
            AheadTransitive(rows, x, y, j);
          } else {
            AheadTotal(rows, x, x);
          }
        }
        assert IsFirst(rows, ids, x);
      } else {
        assert IsFirst(rows, ids, y);
      }
    }
  }

  lemma FirstUnique(rows: Table, ids: set<Uuid>)
    requires ids <= rows.Keys
    ensures forall a, b :: IsFirst(rows, ids, a) && IsFirst(rows, ids, b) ==> a == b
  {
    forall a, b | IsFirst(rows, ids, a) && IsFirst(rows, ids, b)
      ensures a == b
    {
      AheadTotal(rows, a, b);
    }
  }

  /** The ids of `ids`, newest first: each exactly once, every one ahead of those after it. */
  function NewestFirst(rows: Table, ids: set<Uuid>): (r: seq<Uuid>)
    requires ids <= rows.Keys
    ensures |r| == |ids|
    ensures forall k :: k in r <==> k in ids
    ensures forall i, j :: 0 <= i < j < |r| ==> r[i] != r[j]
    ensures forall i, j :: 0 <= i < j < |r| ==> Ahead(rows, r[i], r[j])
    decreases ids
  {
    if ids == {} then []
    else
      FirstExists(rows, ids);
      FirstUnique(rows, ids);
      var k :| IsFirst(rows, ids, k);
      var rest := NewestFirst(rows, ids - {k});
      FirstThenRest(rows, ids, k, rest);
      [k] + rest
  }

  /** The first row followed by a listing of the others is a listing of all. */
  lemma FirstThenRest(rows: Table, ids: set<Uuid>, k: Uuid, rest: seq<Uuid>)
    requires ids <= rows.Keys && IsFirst(rows, ids, k)
    requires |rest| == |ids - {k}|
    requires forall j :: j in rest <==> j in ids - {k}
    requires forall i :: 0 <= i < |rest| ==> rest[i] in ids - {k}
    requires forall i, j :: 0 <= i < j < |rest| ==> rest[i] != rest[j]
    requires forall i, j :: 0 <= i < j < |rest| ==> Ahead(rows, rest[i], rest[j])
    ensures |[k] + rest| == |ids|
    ensures forall j :: j in [k] + rest <==> j in ids
    ensures forall i :: 0 <= i < |[k] + rest| ==> ([k] + rest)[i] in ids
    ensures forall i, j :: 0 <= i < j < |[k] + rest| ==> ([k] + rest)[i] != ([k] + rest)[j]
    ensures forall i, j :: 0 <= i < j < |[k] + rest| ==> Ahead(rows, ([k] + rest)[i], ([k] + rest)[j])
  {
    var r := [k] + rest;
    assert forall i :: 0 < i < |r| ==> r[i] == rest[i - 1];
    forall i, j | 0 <= i < j < |r|
      ensures r[i] != r[j] && Ahead(rows, r[i], r[j])
    {
      if i == 0 {
        assert rest[j - 1] in ids - {k};
      }
    }
  }
}
