/** `get_stats`: the number of rows, and the number of rows for each of a fixed list of statuses and of assignees. */
module Stats {
  import opened Models
  import opened Ordering

  /** The statuses and assignees the endpoint counts, in the order it lists them. */
  const STATUSES: seq<string> := ["backlog", "todo", "in-progress", "review", "done"]
  const ASSIGNEES: seq<string> := ["mira", "felix", "werner", "sophie", "martin", "jon"]

  /** The response: `total`, `by_status` and `by_assignee`. */
  datatype Stats = Stats(total: nat, byStatus: map<string, nat>, byAssignee: map<string, nat>)

  /** The two columns the endpoint groups by. */
  datatype Column = StatusColumn | AssigneeColumn

  function ValueIn(t: Task, c: Column): string {
    match c
    case StatusColumn => t.status
    case AssigneeColumn => t.assignee
  }

  /** The rows whose column `c` holds one of `vs`. */
  function RowsWithin(rows: Table, c: Column, vs: seq<string>): set<Uuid> {
    set k | k in rows && ValueIn(rows[k], c) in vs
  }

  /** `db.query(Task).filter(column == v).count()`. */
  function Count(rows: Table, c: Column, v: string): nat {
    |RowsWithin(rows, c, [v])|
  }

  predicate Distinct(vs: seq<string>) {
    forall i, j :: 0 <= i < j < |vs| ==> vs[i] != vs[j]
  }

  /** The counts of `m` for the keys `keys`, added up. */
  function Sum(m: map<string, nat>, keys: seq<string>): nat
    requires forall i :: 0 <= i < |keys| ==> keys[i] in m
  {
    if keys == [] then 0 else Sum(m, keys[..|keys| - 1]) + m[keys[|keys| - 1]]
  }

  /** `m` holds, for each of `vs` and nothing else, the number of rows with that value in column `c`. */
  ghost predicate Tally(rows: Table, c: Column, vs: seq<string>, m: map<string, nat>) {
    && (forall v :: v in m <==> v in vs)
    && forall v :: v in m ==> m[v] == Count(rows, c, v)
  }

  /** `get_stats`: one count query per listed status, then one per listed assignee. */
  method GetStats(rows: Table) returns (s: Stats)
    ensures s.total == |rows|
    ensures Tally(rows, StatusColumn, STATUSES, s.byStatus)
    ensures Tally(rows, AssigneeColumn, ASSIGNEES, s.byAssignee)
  {
    var total := |rows|;
    var byStatus: map<string, nat> := map[];
    var byAssignee: map<string, nat> := map[];
    for i := 0 to |STATUSES|
      invariant forall v :: v in byStatus <==> v in STATUSES[..i]
      invariant forall v :: v in byStatus ==> byStatus[v] == Count(rows, StatusColumn, v)
    {
      assert STATUSES[..i + 1] == STATUSES[..i] + [STATUSES[i]];
      byStatus := byStatus[STATUSES[i] := Count(rows, StatusColumn, STATUSES[i])];
    }
    for i := 0 to |ASSIGNEES|
      invariant forall v :: v in byAssignee <==> v in ASSIGNEES[..i]
      invariant forall v :: v in byAssignee ==> byAssignee[v] == Count(rows, AssigneeColumn, v)
    {
      assert ASSIGNEES[..i + 1] == ASSIGNEES[..i] + [ASSIGNEES[i]];
      byAssignee := byAssignee[ASSIGNEES[i] := Count(rows, AssigneeColumn, ASSIGNEES[i])];
    }
    assert STATUSES[..|STATUSES|] == STATUSES;
    assert ASSIGNEES[..|ASSIGNEES|] == ASSIGNEES;
    s := Stats(total, byStatus, byAssignee);
  }

  /** The counts of the listed values add up to at most the total, and to exactly the total when no row holds a
      value outside the list. */
  lemma StatsAddUp(rows: Table, s: Stats)
    requires s.total == |rows|
    requires Tally(rows, StatusColumn, STATUSES, s.byStatus)
    requires Tally(rows, AssigneeColumn, ASSIGNEES, s.byAssignee)
    ensures forall i :: 0 <= i < |STATUSES| ==> STATUSES[i] in s.byStatus
    ensures forall i :: 0 <= i < |ASSIGNEES| ==> ASSIGNEES[i] in s.byAssignee
    ensures Sum(s.byStatus, STATUSES) <= s.total
    ensures Sum(s.byStatus, STATUSES) == s.total <==> forall k :: k in rows ==> rows[k].status in STATUSES
    ensures Sum(s.byAssignee, ASSIGNEES) <= s.total
    ensures Sum(s.byAssignee, ASSIGNEES) == s.total <==> forall k :: k in rows ==> rows[k].assignee in ASSIGNEES
  {
    ListsDistinct();
    TallyAddsUp(rows, StatusColumn, STATUSES, s.byStatus);
    TallyAddsUp(rows, AssigneeColumn, ASSIGNEES, s.byAssignee);
  }

  lemma ListsDistinct()
    ensures Distinct(STATUSES) && Distinct(ASSIGNEES)
  {
  }

  /** A tally of distinct values adds up to at most the number of rows, and to exactly that number when every row
      holds one of the values. */
  lemma TallyAddsUp(rows: Table, c: Column, vs: seq<string>, m: map<string, nat>)
    requires Distinct(vs) && Tally(rows, c, vs, m)
    ensures forall i :: 0 <= i < |vs| ==> vs[i] in m
    ensures Sum(m, vs) <= |rows|
    ensures Sum(m, vs) == |rows| <==> forall k :: k in rows ==> ValueIn(rows[k], c) in vs
  {
    SumIsCoverage(rows, c, vs, m);
    Coverage(rows, c, vs);
  }

  /** Adding the counts of distinct values counts every row whose value is among them exactly once. */
  lemma {:induction false} SumIsCoverage(rows: Table, c: Column, vs: seq<string>, m: map<string, nat>)
    requires Distinct(vs)
    requires forall i :: 0 <= i < |vs| ==> vs[i] in m && m[vs[i]] == Count(rows, c, vs[i])
    ensures Sum(m, vs) == |RowsWithin(rows, c, vs)|
  {
    if vs != [] {
      var init, last := vs[..|vs| - 1], vs[|vs| - 1];
      assert Distinct(init);
      SumIsCoverage(rows, c, init, m);
      WithinSplit(rows, c, vs);
      assert last !in init;
      DisjointCount(RowsWithin(rows, c, init), RowsWithin(rows, c, [last]));
    }
  }

  /** The rows with a value among `vs` are those with a value among all but the last, and those with the last. */
  lemma WithinSplit(rows: Table, c: Column, vs: seq<string>)
    requires vs != []
    ensures RowsWithin(rows, c, vs) == RowsWithin(rows, c, vs[..|vs| - 1]) + RowsWithin(rows, c, [vs[|vs| - 1]])
  {
    assert forall v :: v in vs <==> v in vs[..|vs| - 1] || v == vs[|vs| - 1] by {
      assert vs == vs[..|vs| - 1] + [vs[|vs| - 1]];
    }
  }

  lemma DisjointCount(a: set<Uuid>, b: set<Uuid>)
    requires a !! b
    ensures |a + b| == |a| + |b|
  {
  }

  /** The rows with a listed value are at most all rows, and are all rows exactly when no row has another value. */
  lemma Coverage(rows: Table, c: Column, vs: seq<string>)
    ensures |RowsWithin(rows, c, vs)| <= |rows|
    ensures |RowsWithin(rows, c, vs)| == |rows| <==> forall k :: k in rows ==> ValueIn(rows[k], c) in vs
  {
    var within := RowsWithin(rows, c, vs);
    assert within <= rows.Keys;
    assert |rows.Keys - within| == |rows| - |within|;
    if |within| == |rows| {
      assert rows.Keys - within == {};
      forall k | k in rows
        ensures ValueIn(rows[k], c) in vs
      {
        assert k !in rows.Keys - within;
      }
    }
    if forall k :: k in rows ==> ValueIn(rows[k], c) in vs {
      assert within == rows.Keys;
    }
  }
}
