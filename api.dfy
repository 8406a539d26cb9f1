/** The task endpoints of main.py: the request bodies `TaskCreate` and `TaskUpdate` as the validator accepts them,
    the read-only queries (list, get, list by assignee) as functions of the table, and the table itself as a class
    whose methods are the create, update and delete handlers. Error results stand for the HTTP error responses. */
module Api {
  import opened Wrappers
  import opened Models
  import opened Ordering

  /** 404, 422 and 500. */
  datatype ApiError = NotFound | ValidationError | StorageError

  /** One field of a JSON request body: left out, sent as null, or sent with a value. */
  datatype Field<T> = Absent | Null | Given(value: T)

  /** The field's value as an optional: null and absent are both `None`. */
  function OrNone<T>(f: Field<T>): (o: Option<T>)
    ensures o.Some? <==> f.Given?
    ensures f.Given? ==> o.value == f.value
  {
    if f.Given? then Some(f.value) else None
  }

  // ---------------------------------------------------------------------------------------------------------------
  // POST /tasks
  // ---------------------------------------------------------------------------------------------------------------

  /** The body of a create request, before validation. */
  datatype CreateBody = CreateBody(
    title: Field<string>,
    description: Field<string>,
    assignee: Field<string>,
    status: Field<string>,
    priority: Field<string>,
    category: Field<string>,
    dueDate: Field<DateTime>,
    createdBy: Field<string>)

  /** `TaskCreate`: a validated create body. */
  datatype TaskCreate = TaskCreate(
    title: string,
    description: Option<string>,
    assignee: string,
    status: string,
    priority: string,
    category: string,
    dueDate: Option<DateTime>,
    createdBy: string)

  /** A `str` field with a default: absent gives the default, a value is kept; null is not a string. */
  function WithDefault(f: Field<string>, default: string): string
    requires !f.Null?
  {
    if f.Given? then f.value else default
  }

  /** Validation of a create body: `title`, `assignee` and `created_by` must be strings; `status`, `priority` and
      `category` may be left out (and then take "backlog", "medium" and "dev") but not be null; `description` and
      `due_date` may be left out or null. Anything else is a 422. */
  function ValidateCreate(b: CreateBody): (r: Result<TaskCreate, ApiError>)
    ensures r.Success? <==>
      b.title.Given? && b.assignee.Given? && b.createdBy.Given? && !b.status.Null? && !b.priority.Null? && !b.category.Null?
    ensures r.Failure? ==> r.error == ValidationError
    ensures r.Success? ==>
      && r.value.title == b.title.value && r.value.assignee == b.assignee.value && r.value.createdBy == b.createdBy.value
      && r.value.description == OrNone(b.description) && r.value.dueDate == OrNone(b.dueDate)
    ensures r.Success? ==> r.value.status == (if b.status.Absent? then "backlog" else b.status.value)
    ensures r.Success? ==> r.value.priority == (if b.priority.Absent? then "medium" else b.priority.value)
    ensures r.Success? ==> r.value.category == (if b.category.Absent? then "dev" else b.category.value)
  {
    if !b.title.Given? || !b.assignee.Given? || !b.createdBy.Given? || b.status.Null? || b.priority.Null? || b.category.Null?
    then Failure(ValidationError)
    else Success(TaskCreate(
      b.title.value, OrNone(b.description), b.assignee.value,
      WithDefault(b.status, DEFAULT_STATUS), WithDefault(b.priority, DEFAULT_PRIORITY), WithDefault(b.category, DEFAULT_CATEGORY),
      OrNone(b.dueDate), b.createdBy.value))
  }

  /** The row `create_task` inserts: every payload field copied, the id supplied for `uuid4()`, and the two
      timestamps from the two clock readings of the column defaults. */
  function Inserted(p: TaskCreate, id: Uuid, createdClock: DateTime, updatedClock: DateTime): (t: Task)
    ensures t.id == id && t.createdAt == createdClock && t.updatedAt == updatedClock
    ensures t.title == p.title && t.description == p.description && t.assignee == p.assignee
    ensures t.status == p.status && t.priority == p.priority && t.category == p.category
    ensures t.dueDate == p.dueDate && t.createdBy == p.createdBy
  {
    NewTask(id, p.title, p.description, p.assignee, Some(p.status), Some(p.priority), Some(p.category), p.dueDate,
            p.createdBy, createdClock, updatedClock)
  }

  /** A body that leaves out `status`, `priority` and `category` produces a row with "backlog", "medium" and "dev". */
  lemma CreateDefaults(b: CreateBody, id: Uuid, createdClock: DateTime, updatedClock: DateTime)
    requires b.title.Given? && b.assignee.Given? && b.createdBy.Given?
    requires b.status.Absent? && b.priority.Absent? && b.category.Absent?
    ensures ValidateCreate(b).Success?
    ensures var t := Inserted(ValidateCreate(b).value, id, createdClock, updatedClock);
      t.status == "backlog" && t.priority == "medium" && t.category == "dev"
  {
  }

  // ---------------------------------------------------------------------------------------------------------------
  // PATCH /tasks/{id}
  // ---------------------------------------------------------------------------------------------------------------

  /** The body of an update request. Every field is optional; one sent as null is still "set". */
  datatype UpdateBody = UpdateBody(
    title: Field<string>,
    description: Field<string>,
    assignee: Field<string>,
    status: Field<string>,
    priority: Field<string>,
    category: Field<string>,
    dueDate: Field<DateTime>)

  /** One `setattr(task, key, value)`. */
  datatype Assignment =
    | SetTitle(title: Option<string>)
    | SetDescription(description: Option<string>)
    | SetAssignee(assignee: Option<string>)
    | SetStatus(status: Option<string>)
    | SetPriority(priority: Option<string>)
    | SetCategory(category: Option<string>)
    | SetDueDate(dueDate: Option<DateTime>)

  /** `items`, followed by `a` when the field it assigns is set. */
  function Also(items: seq<Assignment>, present: bool, a: Assignment): seq<Assignment> {
    if present then items + [a] else items
  }

  /** `task_data.dict(exclude_unset=True)`: one assignment for each field the body sets, null included, in the
      order the fields are declared. */
  function UpdateData(b: UpdateBody): seq<Assignment> {
    var s1 := Also([], !b.title.Absent?, SetTitle(OrNone(b.title)));
    var s2 := Also(s1, !b.description.Absent?, SetDescription(OrNone(b.description)));
    var s3 := Also(s2, !b.assignee.Absent?, SetAssignee(OrNone(b.assignee)));
    var s4 := Also(s3, !b.status.Absent?, SetStatus(OrNone(b.status)));
    var s5 := Also(s4, !b.priority.Absent?, SetPriority(OrNone(b.priority)));
    var s6 := Also(s5, !b.category.Absent?, SetCategory(OrNone(b.category)));
    Also(s6, !b.dueDate.Absent?, SetDueDate(OrNone(b.dueDate)))
  }

  function Apply(d: Draft, a: Assignment): Draft {
    match a
    case SetTitle(v) => d.(title := v)
    case SetDescription(v) => d.(description := v)
    case SetAssignee(v) => d.(assignee := v)
    case SetStatus(v) => d.(status := v)
    case SetPriority(v) => d.(priority := v)
    case SetCategory(v) => d.(category := v)
    case SetDueDate(v) => d.(dueDate := v)
  }

  /** The assignments applied one after another, first to last. */
  function ApplyAll(d: Draft, items: seq<Assignment>): Draft
    decreases |items|
  {
    if items == [] then d else Apply(ApplyAll(d, items[..|items| - 1]), items[|items| - 1])
  }

  lemma ApplyAlso(d: Draft, items: seq<Assignment>, present: bool, a: Assignment)
    ensures ApplyAll(d, Also(items, present, a)) == if present then Apply(ApplyAll(d, items), a) else ApplyAll(d, items)
  {
    if present {
      assert (items + [a])[..|items|] == items;
    }
  }

  lemma ApplyAllStep(d: Draft, items: seq<Assignment>, i: nat)
    requires i < |items|
    ensures ApplyAll(d, items[..i + 1]) == Apply(ApplyAll(d, items[..i]), items[i])
  {
    assert items[..i + 1][..i] == items[..i];
  }

  /** A field of the body laid over the old value: left out keeps it, null clears it, a value replaces it. */
  function Overwrite<T>(f: Field<T>, previous: Option<T>): Option<T> {
    match f
    case Absent => previous
    case Null => None
    case Given(v) => Some(v)
  }

  /** The partial update stated field by field, without the loop. */
  function Merged(t: Task, b: UpdateBody): Draft {
    Load(t).(
      title := Overwrite(b.title, Some(t.title)),
      description := Overwrite(b.description, t.description),
      assignee := Overwrite(b.assignee, Some(t.assignee)),
      status := Overwrite(b.status, Some(t.status)),
      priority := Overwrite(b.priority, Some(t.priority)),
      category := Overwrite(b.category, Some(t.category)),
      dueDate := Overwrite(b.dueDate, t.dueDate))
  }

  /** The `setattr` loop over the set fields does exactly the field-by-field overwrite. */
  lemma UpdateLoopIsFieldwise(t: Task, b: UpdateBody)
    ensures ApplyAll(Load(t), UpdateData(b)) == Merged(t, b)
  {
    AssignmentsOverwrite(Load(t), b);
  }

  lemma AssignmentsOverwrite(d: Draft, b: UpdateBody)
    ensures ApplyAll(d, UpdateData(b)) == d.(
      title := Overwrite(b.title, d.title),
      description := Overwrite(b.description, d.description),
      assignee := Overwrite(b.assignee, d.assignee),
      status := Overwrite(b.status, d.status),
      priority := Overwrite(b.priority, d.priority),
      category := Overwrite(b.category, d.category),
      dueDate := Overwrite(b.dueDate, d.dueDate))
  {
    var s1 := Also([], !b.title.Absent?, SetTitle(OrNone(b.title)));
    var s2 := Also(s1, !b.description.Absent?, SetDescription(OrNone(b.description)));
    var s3 := Also(s2, !b.assignee.Absent?, SetAssignee(OrNone(b.assignee)));
    var e3 := d.(
      title := Overwrite(b.title, d.title),
      description := Overwrite(b.description, d.description),
      assignee := Overwrite(b.assignee, d.assignee));
    LeadingFields(d, b);
    TrailingFields(d, s3, e3, b);
  }

  /** The assignments for title, description and assignee. */
  lemma LeadingFields(d: Draft, b: UpdateBody)
    ensures
      var s1 := Also([], !b.title.Absent?, SetTitle(OrNone(b.title)));
      var s2 := Also(s1, !b.description.Absent?, SetDescription(OrNone(b.description)));
      var s3 := Also(s2, !b.assignee.Absent?, SetAssignee(OrNone(b.assignee)));
      ApplyAll(d, s3) == d.(
        title := Overwrite(b.title, d.title),
        description := Overwrite(b.description, d.description),
        assignee := Overwrite(b.assignee, d.assignee))
  {
    var s1 := Also([], !b.title.Absent?, SetTitle(OrNone(b.title)));
    var s2 := Also(s1, !b.description.Absent?, SetDescription(OrNone(b.description)));
    var e1 := d.(title := Overwrite(b.title, d.title));
    var e2 := e1.(description := Overwrite(b.description, d.description));
    ApplyOverwrite(d, [], d, b.title, SetTitle(OrNone(b.title)), e1);
    ApplyOverwrite(d, s1, e1, b.description, SetDescription(OrNone(b.description)), e2);
    ApplyOverwrite(d, s2, e2, b.assignee, SetAssignee(OrNone(b.assignee)), e2.(assignee := Overwrite(b.assignee, d.assignee)));
  }

  /** The assignments for status, priority, category and due date, after any prefix. */
  lemma TrailingFields(d: Draft, s3: seq<Assignment>, e3: Draft, b: UpdateBody)
    requires ApplyAll(d, s3) == e3
    ensures
      var s4 := Also(s3, !b.status.Absent?, SetStatus(OrNone(b.status)));
      var s5 := Also(s4, !b.priority.Absent?, SetPriority(OrNone(b.priority)));
      var s6 := Also(s5, !b.category.Absent?, SetCategory(OrNone(b.category)));
      var s7 := Also(s6, !b.dueDate.Absent?, SetDueDate(OrNone(b.dueDate)));
      ApplyAll(d, s7) == e3.(
        status := Overwrite(b.status, e3.status),
        priority := Overwrite(b.priority, e3.priority),
        category := Overwrite(b.category, e3.category),
        dueDate := Overwrite(b.dueDate, e3.dueDate))
  {
    var s4 := Also(s3, !b.status.Absent?, SetStatus(OrNone(b.status)));
    var s5 := Also(s4, !b.priority.Absent?, SetPriority(OrNone(b.priority)));
    var s6 := Also(s5, !b.category.Absent?, SetCategory(OrNone(b.category)));
    var e4 := e3.(status := Overwrite(b.status, e3.status));
    var e5 := e4.(priority := Overwrite(b.priority, e3.priority));
    var e6 := e5.(category := Overwrite(b.category, e3.category));
    ApplyOverwrite(d, s3, e3, b.status, SetStatus(OrNone(b.status)), e4);
    ApplyOverwrite(d, s4, e4, b.priority, SetPriority(OrNone(b.priority)), e5);
    ApplyOverwrite(d, s5, e5, b.category, SetCategory(OrNone(b.category)), e6);
    ApplyOverwrite(d, s6, e6, b.dueDate, SetDueDate(OrNone(b.dueDate)), e6.(dueDate := Overwrite(b.dueDate, e3.dueDate)));
  }

  /** One more assignment for a field `f` of the body, when `f` is set, takes the drafts from `e` to `next`. */
  lemma ApplyOverwrite<T>(d: Draft, items: seq<Assignment>, e: Draft, f: Field<T>, a: Assignment, next: Draft)
    requires ApplyAll(d, items) == e
    requires f.Absent? ==> next == e
    requires !f.Absent? ==> next == Apply(e, a)
    ensures ApplyAll(d, Also(items, !f.Absent?, a)) == next
  {
    ApplyAlso(d, items, !f.Absent?, a);
  }

  /** Sets `f` to null: clearing a NOT NULL column. */
  predicate Clears<T>(f: Field<T>) {
    f.Null?
  }

  /** `f`, when it carries a string, carries one of at most `n` characters. */
  predicate FitsIn(f: Field<string>, n: nat) {
    f.Given? ==> |f.value| <= n
  }

  /** The row an update writes, or `None` when the database refuses it at commit. */
  function Patched(t: Task, b: UpdateBody, now: DateTime): (r: Option<Task>)
    ensures Fits(t) ==> (r.Some? <==>
      && !Clears(b.title) && !Clears(b.assignee) && !Clears(b.status) && !Clears(b.priority) && !Clears(b.category)
      && FitsIn(b.title, 255) && FitsIn(b.assignee, 50) && FitsIn(b.status, 50) && FitsIn(b.priority, 20)
      && FitsIn(b.category, 50))
    ensures r.Some? ==> Fits(r.value)
    ensures r.Some? ==> r.value.id == t.id && r.value.createdAt == t.createdAt && r.value.createdBy == t.createdBy
    ensures r.Some? ==> r.value.updatedAt == now
    ensures r.Some? ==> r.value.title == (if b.title.Given? then b.title.value else t.title)
    ensures r.Some? ==> r.value.assignee == (if b.assignee.Given? then b.assignee.value else t.assignee)
    ensures r.Some? ==> r.value.status == (if b.status.Given? then b.status.value else t.status)
    ensures r.Some? ==> r.value.priority == (if b.priority.Given? then b.priority.value else t.priority)
    ensures r.Some? ==> r.value.category == (if b.category.Given? then b.category.value else t.category)
    ensures r.Some? ==> r.value.description == (if b.description.Absent? then t.description else OrNone(b.description))
    ensures r.Some? ==> r.value.dueDate == (if b.dueDate.Absent? then t.dueDate else OrNone(b.dueDate))
  {
    Flush(Merged(t, b).(updatedAt := now))
  }

  // ---------------------------------------------------------------------------------------------------------------
  // GET /tasks, GET /tasks/{id}, GET /tasks/by-assignee/{assignee}
  // ---------------------------------------------------------------------------------------------------------------

  /** Every row is stored under its own id. */
  predicate Keyed(rows: Table) {
    forall k :: k in rows ==> rows[k].id == k
  }

  /** The query parameters of the list endpoint. */
  datatype ListQuery = ListQuery(assignee: Option<string>, status: Option<string>, category: Option<string>)

  /** A query parameter that filters: given and not the empty string. */
  predicate Active(p: Option<string>) {
    p.Some? && p.value != ""
  }

  /** The conjunction of the exact-match filters in force. */
  predicate Matches(t: Task, q: ListQuery) {
    && (Active(q.assignee) ==> t.assignee == q.assignee.value)
    && (Active(q.status) ==> t.status == q.status.value)
    && (Active(q.category) ==> t.category == q.category.value)
  }

  function RowsOf(rows: Table, ids: seq<Uuid>): (r: seq<Task>)
    requires forall i :: 0 <= i < |ids| ==> ids[i] in rows
    ensures |r| == |ids|
    ensures forall i :: 0 <= i < |ids| ==> r[i] == rows[ids[i]]
  {
    seq(|ids|, i requires 0 <= i < |ids| => rows[ids[i]])
  }

  lemma AheadNotEarlier(rows: Table, a: Uuid, b: Uuid)
    requires a in rows && b in rows && Ahead(rows, a, b)
    ensures !Earlier(rows[a].createdAt, rows[b].createdAt)
  {
    EarlierIsStrictTotal(rows[a].createdAt, rows[b].createdAt);
  }

  /** The rows with the given ids, newest first: the shape of every list response. */
  function Listing(rows: Table, ids: set<Uuid>): (r: seq<Task>)
    requires Keyed(rows) && ids <= rows.Keys
    ensures |r| == |ids|
    ensures forall t :: t in r <==> t.id in ids && rows[t.id] == t
    ensures forall i, j :: 0 <= i < j < |r| ==> r[i].id != r[j].id
    ensures forall i, j :: 0 <= i < j < |r| ==> !Earlier(r[i].createdAt, r[j].createdAt)
  {
    var order := NewestFirst(rows, ids);
    var r := RowsOf(rows, order);
    ListingMembers(rows, ids, order, r);
    ListingOrdered(rows, ids, order, r);
    ListingDistinct(order, r);
    r
  }

  lemma ListingDistinct(order: seq<Uuid>, r: seq<Task>)
    requires |r| == |order|
    requires forall i :: 0 <= i < |r| ==> r[i].id == order[i]
    requires forall i, j :: 0 <= i < j < |order| ==> order[i] != order[j]
    ensures forall i, j :: 0 <= i < j < |r| ==> r[i].id != r[j].id
  {
  }

  lemma ListingMembers(rows: Table, ids: set<Uuid>, order: seq<Uuid>, r: seq<Task>)
    requires Keyed(rows) && ids <= rows.Keys
    requires forall k :: k in order <==> k in ids
    requires (forall i :: 0 <= i < |order| ==> order[i] in rows) && r == RowsOf(rows, order)
    ensures forall t :: t in r <==> t.id in ids && rows[t.id] == t
    ensures forall i :: 0 <= i < |r| ==> r[i].id == order[i]
  {
    forall t | t in r
      ensures t.id in ids && rows[t.id] == t
    {
      var i :| 0 <= i < |r| && r[i] == t;
      assert order[i] in ids;
    }
    forall t: Task | t.id in ids && rows[t.id] == t
      ensures t in r
    {
      var i :| 0 <= i < |order| && order[i] == t.id;
      assert r[i] == t;
    }
  }

  lemma ListingOrdered(rows: Table, ids: set<Uuid>, order: seq<Uuid>, r: seq<Task>)
    requires ids <= rows.Keys
    requires forall i :: 0 <= i < |order| ==> order[i] in rows
    requires forall i, j :: 0 <= i < j < |order| ==> Ahead(rows, order[i], order[j])
    requires r == RowsOf(rows, order)
    ensures forall i, j :: 0 <= i < j < |r| ==> !Earlier(r[i].createdAt, r[j].createdAt)
  {
    forall i, j | 0 <= i < j < |r|
      ensures !Earlier(r[i].createdAt, r[j].createdAt)
    {
      AheadNotEarlier(rows, order[i], order[j]);
    }
  }

  function Selected(rows: Table, q: ListQuery): (ids: set<Uuid>)
    ensures ids <= rows.Keys
  {
    set k | k in rows && Matches(rows[k], q)
  }

  /** `list_tasks`: exactly the rows that pass every filter in force, each once, newest first. */
  function ListTasks(rows: Table, q: ListQuery): (r: seq<Task>)
    requires Keyed(rows)
    ensures forall t :: t in r <==> t.id in rows && rows[t.id] == t && Matches(t, q)
    ensures forall i, j :: 0 <= i < j < |r| ==> r[i].id != r[j].id
    ensures forall i, j :: 0 <= i < j < |r| ==> !Earlier(r[i].createdAt, r[j].createdAt)
  {
    Listing(rows, Selected(rows, q))
  }

  /** With no filter in force, or with every filter given as the empty string, the list holds every row. */
  lemma ListUnfiltered(rows: Table, q: ListQuery)
    requires Keyed(rows)
    requires !Active(q.assignee) && !Active(q.status) && !Active(q.category)
    ensures |ListTasks(rows, q)| == |rows|
    ensures forall k :: k in rows ==> rows[k] in ListTasks(rows, q)
  {
    assert Selected(rows, q) == rows.Keys;
  }

  /** `get_task`: the row stored under `id`, or 404. */
  function GetTask(rows: Table, id: Uuid): (r: Result<Task, ApiError>)
    ensures r.Success? <==> id in rows
    ensures r.Success? ==> r.value == rows[id]
    ensures r.Failure? ==> r.error == NotFound
  {
    if id in rows then Success(rows[id]) else Failure(NotFound)
  }

  /** `get_tasks_by_assignee`: the rows of one assignee, newest first. The path value filters even when empty. */
  function TasksByAssignee(rows: Table, assignee: string): (r: seq<Task>)
    requires Keyed(rows)
    ensures forall t :: t in r <==> t.id in rows && rows[t.id] == t && t.assignee == assignee
    ensures forall i, j :: 0 <= i < j < |r| ==> r[i].id != r[j].id
    ensures forall i, j :: 0 <= i < j < |r| ==> !Earlier(r[i].createdAt, r[j].createdAt)
  {
    Listing(rows, set k | k in rows && rows[k].assignee == assignee)
  }

  /** For a non-empty assignee the by-assignee endpoint returns the same list as the list endpoint filtered by that
      assignee alone. */
  lemma ByAssigneeIsFilteredList(rows: Table, assignee: string)
    requires Keyed(rows)
    requires assignee != ""
    ensures TasksByAssignee(rows, assignee) == ListTasks(rows, ListQuery(Some(assignee), None, None))
  {
    assert (set k | k in rows && rows[k].assignee == assignee) == Selected(rows, ListQuery(Some(assignee), None, None));
  }

  /** The body of `update_task` between the lookup and the commit: `setattr` for each set field of the body, in
      order, then `updated_at`; the row the commit writes, or `None` when a constraint rejects it. */
  method SetAttributes(stored: Task, body: UpdateBody, now: DateTime) returns (written: Option<Task>)
    ensures written == Patched(stored, body, now)
  {
    var task := Load(stored);
    var items := UpdateData(body);
    var i := 0;
    while i < |items|
      invariant 0 <= i <= |items|
      invariant task == ApplyAll(Load(stored), items[..i])
    {
      ApplyAllStep(Load(stored), items, i);
      task := Apply(task, items[i]);
      i := i + 1;
    }
    assert items[..i] == items;
    UpdateLoopIsFieldwise(stored, body);
    task := task.(updatedAt := now);
    written := Flush(task);
  }

  // ---------------------------------------------------------------------------------------------------------------
  // The table and its mutating handlers
  // ---------------------------------------------------------------------------------------------------------------

  class TaskTable {
    var rows: Table

    /** Every row is stored under its id, respects the column bounds, and was not updated before it was created. */
    ghost predicate Valid()
      reads this
    {
      forall k :: k in rows ==> rows[k].id == k && Fits(rows[k]) && AtOrBefore(rows[k].createdAt, rows[k].updatedAt)
    }

    constructor ()
      ensures Valid() && rows == map[]
    {
      rows := map[];
    }

    /** `create_task`: one new row under the fresh id, or a 500 when a VARCHAR bound rejects it. */
    method Create(payload: TaskCreate, id: Uuid, createdClock: DateTime, updatedClock: DateTime)
      returns (r: Result<Task, ApiError>)
      requires Valid()
      requires id !in rows
      requires AtOrBefore(createdClock, updatedClock)
      modifies this
      ensures Valid()
      ensures Fits(Inserted(payload, id, createdClock, updatedClock)) ==>
        && r == Success(Inserted(payload, id, createdClock, updatedClock))
        && rows == old(rows)[id := Inserted(payload, id, createdClock, updatedClock)]
        && |rows| == |old(rows)| + 1
      ensures !Fits(Inserted(payload, id, createdClock, updatedClock)) ==>
        r == Failure(StorageError) && rows == old(rows)
    {
      var t := Inserted(payload, id, createdClock, updatedClock);
      if Fits(t) {
        rows := rows[id := t];
        r := Success(t);
      } else {
        r := Failure(StorageError);
      }
    }

    /** `update_task`: the row under `id` with every set field overwritten and `updated_at` refreshed; 404 for an
        unknown id; 500, with nothing changed, when the new row breaks a NOT NULL or VARCHAR constraint. */
    method Update(id: Uuid, body: UpdateBody, now: DateTime) returns (r: Result<Task, ApiError>)
      requires Valid()
      requires forall k :: k in rows ==> AtOrBefore(rows[k].updatedAt, now)
      modifies this
      ensures Valid()
      ensures id !in old(rows) ==> r == Failure(NotFound) && rows == old(rows)
      ensures id in old(rows) && Patched(old(rows)[id], body, now).None? ==>
        r == Failure(StorageError) && rows == old(rows)
      ensures id in old(rows) && Patched(old(rows)[id], body, now).Some? ==>
        && r == Success(Patched(old(rows)[id], body, now).value)
        && rows == old(rows)[id := Patched(old(rows)[id], body, now).value]
    {
      if id !in rows {
        return Failure(NotFound);
      }
      var stored := rows[id];
      var written := SetAttributes(stored, body, now);
      if written.None? {
        r := Failure(StorageError);
      } else {
        AtOrBeforeTransitive(stored.createdAt, stored.updatedAt, now);
        rows := rows[id := written.value];
        r := Success(written.value);
      }
    }

    /** `delete_task`: the row under `id` removed and nothing else changed, or 404 when there is none. */
    method Delete(id: Uuid) returns (r: Result<(), ApiError>)
      requires Valid()
      modifies this
      ensures Valid()
      ensures r == (if id in old(rows) then Success(()) else Failure(NotFound))
      ensures rows == old(rows) - {id}
      ensures GetTask(rows, id) == Failure(NotFound)
    {
      if id !in rows {
        assert rows - {id} == rows;
        return Failure(NotFound);
      }
      rows := rows - {id};
      r := Success(());
    }
  }

  /** A body that sets only `status` changes the status and `updated_at` of a row and nothing else. */
  lemma StatusOnlyPatch(t: Task, status: string, now: DateTime)
    requires Fits(t) && |status| <= STATUS_LENGTH
    ensures Patched(t, UpdateBody(Absent, Absent, Absent, Given(status), Absent, Absent, Absent), now)
      == Some(t.(status := status, updatedAt := now))
  {
    var b := UpdateBody(Absent, Absent, Absent, Given(status), Absent, Absent, Absent);
    var r := Patched(t, b, now);
    assert r.Some?;
    assert r.value.description == t.description && r.value.dueDate == t.dueDate;
  }

  /** A task created with only the required fields gets the status, priority and category defaults. */
  method CreateRequiredOnly(table: TaskTable, id: Uuid, createdClock: DateTime, updatedClock: DateTime)
    returns (task: Task)
    requires table.Valid()
    requires id !in table.rows
    requires AtOrBefore(createdClock, updatedClock)
    modifies table
    ensures table.Valid()
    ensures task == Task(id, "Fix bug", None, "felix", "backlog", "medium", "dev", createdClock, updatedClock, None, "mira")
    ensures table.rows == old(table.rows)[id := task]
  {
    var body := CreateBody(Given("Fix bug"), Absent, Given("felix"), Absent, Absent, Absent, Absent, Given("mira"));
    var payload := ValidateCreate(body);
    var created := table.Create(payload.value, id, createdClock, updatedClock);
    task := created.value;
  }

  /** Moving a stored task to "done" changes its status and `updated_at` and nothing else. */
  method MarkDone(table: TaskTable, id: Uuid, now: DateTime) returns (task: Task)
    requires table.Valid()
    requires id in table.rows
    requires forall k :: k in table.rows ==> AtOrBefore(table.rows[k].updatedAt, now)
    modifies table
    ensures table.Valid()
    ensures task == old(table.rows)[id].(status := "done", updatedAt := now)
    ensures table.rows == old(table.rows)[id := task]
  {
    var patch := UpdateBody(Absent, Absent, Absent, Given("done"), Absent, Absent, Absent);
    StatusOnlyPatch(table.rows[id], "done", now);
    var updated := table.Update(id, patch, now);
    task := updated.value;
  }

  /** After a delete the id is gone: a lookup and a second delete both give 404, and the table is as before the
      row was inserted. */
  method DeleteTwice(table: TaskTable, id: Uuid) returns (first: Result<(), ApiError>, lookup: Result<Task, ApiError>,
                                                         second: Result<(), ApiError>)
    requires table.Valid() && id in table.rows
    modifies table
    ensures table.Valid() && table.rows == old(table.rows) - {id}
    ensures first == Success(()) && lookup == Failure(NotFound) && second == Failure(NotFound)
  {
    first := table.Delete(id);
    lookup := GetTask(table.rows, id);
    second := table.Delete(id);
  }

  /** The life of one task, from creation to deletion, leaves the table as it found it. */
  method Lifecycle(table: TaskTable, id: Uuid, createdClock: DateTime, updatedClock: DateTime, now: DateTime)
    requires table.Valid()
    requires id !in table.rows
    requires AtOrBefore(createdClock, updatedClock) && AtOrBefore(updatedClock, now)
    requires forall k :: k in table.rows ==> AtOrBefore(table.rows[k].updatedAt, now)
    modifies table
    ensures table.Valid() && table.rows == old(table.rows)
  {
    var task := CreateRequiredOnly(table, id, createdClock, updatedClock);
    AtOrBeforeTransitive(createdClock, updatedClock, now);
    task := MarkDone(table, id, now);
    var first, lookup, second := DeleteTwice(table, id);
    assert table.rows == old(table.rows);
  }
}
