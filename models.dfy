/** The `tasks` table of models.py: the column set with its nullability, defaults and length bounds, the in-memory
    object the ORM flushes, and `to_dict`, the record's projection into the JSON object every endpoint returns. */
module Models {
  import opened Wrappers
  import opened Json
  import Text

  // ---------------------------------------------------------------------------------------------------------------
  // Identifiers and timestamps
  // ---------------------------------------------------------------------------------------------------------------

  /** A UUID column value: a 128-bit number. */
  newtype Uuid = n: int | 0 <= n < 0x1_0000_0000_0000_0000_0000_0000_0000_0000

  /** The fields of a naive (time-zone-free) date-time value. */
  datatype Stamp = Stamp(year: int, month: int, day: int, hour: int, minute: int, second: int, microsecond: int)

  predicate IsLeapYear(y: int) {
    y % 4 == 0 && (y % 100 != 0 || y % 400 == 0)
  }

  function DaysInMonth(y: int, m: int): int {
    if m == 2 then (if IsLeapYear(y) then 29 else 28)
    else if m == 4 || m == 6 || m == 9 || m == 11 then 30
    else 31
  }

  /** The values a date-time can hold: years 1 to 9999, real calendar days, microsecond resolution. */
  predicate WellFormed(s: Stamp) {
    && 1 <= s.year <= 9999
    && 1 <= s.month <= 12
    && 1 <= s.day <= DaysInMonth(s.year, s.month)
    && 0 <= s.hour < 24
    && 0 <= s.minute < 60
    && 0 <= s.second < 60
    && 0 <= s.microsecond < 1000000
  }

  type DateTime = s: Stamp | WellFormed(s) witness Stamp(1, 1, 1, 0, 0, 0, 0)

  /** Chronological order: `a` is strictly earlier than `b`. */
  predicate Earlier(a: DateTime, b: DateTime) {
    if a.year != b.year then a.year < b.year
    else if a.month != b.month then a.month < b.month
    else if a.day != b.day then a.day < b.day
    else if a.hour != b.hour then a.hour < b.hour
    else if a.minute != b.minute then a.minute < b.minute
    else if a.second != b.second then a.second < b.second
    else a.microsecond < b.microsecond
  }

  predicate AtOrBefore(a: DateTime, b: DateTime) {
    a == b || Earlier(a, b)
  }

  /** Any two distinct timestamps are ordered one way or the other, and never both. */
  lemma EarlierIsStrictTotal(a: DateTime, b: DateTime)
    ensures !(Earlier(a, b) && Earlier(b, a))
    ensures a != b ==> Earlier(a, b) || Earlier(b, a)
    ensures !Earlier(a, a)
  {
  }

  lemma AtOrBeforeTransitive(a: DateTime, b: DateTime, c: DateTime)
    requires AtOrBefore(a, b) && AtOrBefore(b, c)
    ensures AtOrBefore(a, c)
  {
  }

  // ---------------------------------------------------------------------------------------------------------------
  // Text forms: str(uuid) and datetime.isoformat()
  // ---------------------------------------------------------------------------------------------------------------

  lemma PowersOfTen()
    ensures Text.Pow(10, 2) == 100 && Text.Pow(10, 4) == 10000 && Text.Pow(10, 6) == 1000000
  {
    assert Text.Pow(10, 2) == 100;
    Text.PowAdd(10, 2, 2);
    Text.PowAdd(10, 4, 2);
  }

  function Dec(v: nat, width: nat): (s: string)
    requires width == 2 || width == 4 || width == 6
    requires v < Text.Pow(10, width)
    ensures |s| == width
  {
    Text.Digits(v, 10, width)
  }

  /** The calendar part, YYYY-MM-DD. */
  function DatePart(d: DateTime): (s: string)
    ensures |s| == 10
  {
    PowersOfTen();
    Dec(d.year as nat, 4) + "-" + Dec(d.month as nat, 2) + "-" + Dec(d.day as nat, 2)
  }

  /** The clock part, HH:MM:SS. */
  function TimePart(d: DateTime): (s: string)
    ensures |s| == 8
  {
    PowersOfTen();
    Dec(d.hour as nat, 2) + ":" + Dec(d.minute as nat, 2) + ":" + Dec(d.second as nat, 2)
  }

  /** The fraction: empty for a whole second, otherwise a dot and six digits. */
  function FractionPart(d: DateTime): (s: string)
    ensures s == "" <==> d.microsecond == 0
    ensures s != "" ==> |s| == 7
  {
    PowersOfTen();
    if d.microsecond == 0 then "" else "." + Dec(d.microsecond as nat, 6)
  }

  /** `datetime.isoformat()` of a naive value: YYYY-MM-DDTHH:MM:SS, with .ffffff only when the microseconds are
      not zero. */
  function IsoFormat(d: DateTime): (s: string)
    ensures |s| == (if d.microsecond == 0 then 19 else 26)
  {
    DatePart(d) + "T" + TimePart(d) + FractionPart(d)
  }

  lemma DatePartInjective(a: DateTime, b: DateTime)
    requires DatePart(a) == DatePart(b)
    ensures a.year == b.year && a.month == b.month && a.day == b.day
  {
    PowersOfTen();
    var ya, yb := Dec(a.year as nat, 4), Dec(b.year as nat, 4);
    var ma, mb := Dec(a.month as nat, 2), Dec(b.month as nat, 2);
    var da, db := Dec(a.day as nat, 2), Dec(b.day as nat, 2);
    Text.SplitEqual(ya + "-" + ma + "-", da, yb + "-" + mb + "-", db);
    Text.SplitEqual(ya + "-" + ma, "-", yb + "-" + mb, "-");
    Text.SplitEqual(ya + "-", ma, yb + "-", mb);
    Text.SplitEqual(ya, "-", yb, "-");
    Text.DigitsInjective(a.year as nat, b.year as nat, 10, 4);
    Text.DigitsInjective(a.month as nat, b.month as nat, 10, 2);
    Text.DigitsInjective(a.day as nat, b.day as nat, 10, 2);
  }

  lemma TimePartInjective(a: DateTime, b: DateTime)
    requires TimePart(a) == TimePart(b)
    ensures a.hour == b.hour && a.minute == b.minute && a.second == b.second
  {
    PowersOfTen();
    var ha, hb := Dec(a.hour as nat, 2), Dec(b.hour as nat, 2);
    var ma, mb := Dec(a.minute as nat, 2), Dec(b.minute as nat, 2);
    var sa, sb := Dec(a.second as nat, 2), Dec(b.second as nat, 2);
    Text.SplitEqual(ha + ":" + ma + ":", sa, hb + ":" + mb + ":", sb);
    Text.SplitEqual(ha + ":" + ma, ":", hb + ":" + mb, ":");
    Text.SplitEqual(ha + ":", ma, hb + ":", mb);
    Text.SplitEqual(ha, ":", hb, ":");
    Text.DigitsInjective(a.hour as nat, b.hour as nat, 10, 2);
    Text.DigitsInjective(a.minute as nat, b.minute as nat, 10, 2);
    Text.DigitsInjective(a.second as nat, b.second as nat, 10, 2);
  }

  /** The ISO text loses nothing: two timestamps with the same text are the same timestamp. */
  lemma IsoFormatInjective(a: DateTime, b: DateTime)
    requires IsoFormat(a) == IsoFormat(b)
    ensures a == b
  {
    PowersOfTen();
    Text.SplitEqual(DatePart(a) + "T" + TimePart(a), FractionPart(a), DatePart(b) + "T" + TimePart(b), FractionPart(b));
    Text.SplitEqual(DatePart(a) + "T", TimePart(a), DatePart(b) + "T", TimePart(b));
    Text.SplitEqual(DatePart(a), "T", DatePart(b), "T");
    DatePartInjective(a, b);
    TimePartInjective(a, b);
    if a.microsecond != 0 {
      var fa, fb := Dec(a.microsecond as nat, 6), Dec(b.microsecond as nat, 6);
      Text.SplitEqual(".", fa, ".", fb);
      Text.DigitsInjective(a.microsecond as nat, b.microsecond as nat, 10, 6);
    }
  }

  /** The 32 lower-case hexadecimal digits of a UUID. */
  function Hex(id: Uuid): (h: string)
    ensures |h| == 32
  {
    Text.Pow16To32();
    Text.Digits(id as nat, 16, 32)
  }

  /** `str(uuid)`: the canonical 8-4-4-4-12 hyphenated form. */
  function UuidText(id: Uuid): (s: string)
    ensures |s| == 36
  {
    var h := Hex(id);
    h[..8] + "-" + h[8..12] + "-" + h[12..16] + "-" + h[16..20] + "-" + h[20..]
  }

  /** Distinct UUIDs have distinct texts. */
  lemma UuidTextInjective(a: Uuid, b: Uuid)
    requires UuidText(a) == UuidText(b)
    ensures a == b
  {
    var ha, hb := Hex(a), Hex(b);
    UuidTextDigits(a);
    UuidTextDigits(b);
    assert forall i :: 0 <= i < 32 ==> ha[i] == hb[i];
    assert ha == hb;
    Text.Pow16To32();
    Text.DigitsInjective(a as nat, b as nat, 16, 32);
  }

  /** Where the hexadecimal digits sit in the text: hyphens at positions 8, 13, 18 and 23, and each group of
      digits moved right by the hyphens before it. */
  lemma UuidTextDigits(id: Uuid)
    ensures UuidText(id)[8] == '-' && UuidText(id)[13] == '-' && UuidText(id)[18] == '-' && UuidText(id)[23] == '-'
    ensures forall i :: 0 <= i < 8 ==> UuidText(id)[i] == Hex(id)[i]
    ensures forall i :: 8 <= i < 12 ==> UuidText(id)[i + 1] == Hex(id)[i]
    ensures forall i :: 12 <= i < 16 ==> UuidText(id)[i + 2] == Hex(id)[i]
    ensures forall i :: 16 <= i < 20 ==> UuidText(id)[i + 3] == Hex(id)[i]
    ensures forall i :: 20 <= i < 32 ==> UuidText(id)[i + 4] == Hex(id)[i]
  {
    var h := Hex(id);
    var p1 := h[..8] + "-";
    var p2 := p1 + h[8..12] + "-";
    var p3 := p2 + h[12..16] + "-";
    var p4 := p3 + h[16..20] + "-";
    assert UuidText(id) == p4 + h[20..];
    assert |p1| == 9 && |p2| == 14 && |p3| == 19 && |p4| == 24;
  }

  // ---------------------------------------------------------------------------------------------------------------
  // The record
  // ---------------------------------------------------------------------------------------------------------------

  /** A stored row of `tasks`. The non-null columns have plain types; `description` and `due_date`, the two
      nullable ones, are options. */
  datatype Task = Task(
    id: Uuid,
    title: string,
    description: Option<string>,
    assignee: string,
    status: string,
    priority: string,
    category: string,
    createdAt: DateTime,
    updatedAt: DateTime,
    dueDate: Option<DateTime>,
    createdBy: string)

  const TITLE_LENGTH := 255
  const ASSIGNEE_LENGTH := 50
  const STATUS_LENGTH := 50
  const PRIORITY_LENGTH := 20
  const CATEGORY_LENGTH := 50
  const CREATED_BY_LENGTH := 50

  const DEFAULT_STATUS := "backlog"
  const DEFAULT_PRIORITY := "medium"
  const DEFAULT_CATEGORY := "dev"

  /** The VARCHAR(n) bounds of the string columns; `description` is TEXT and unbounded. */
  predicate Fits(t: Task) {
    && |t.title| <= TITLE_LENGTH
    && |t.assignee| <= ASSIGNEE_LENGTH
    && |t.status| <= STATUS_LENGTH
    && |t.priority| <= PRIORITY_LENGTH
    && |t.category| <= CATEGORY_LENGTH
    && |t.createdBy| <= CREATED_BY_LENGTH
  }

  /** The row written when a `Task(...)` object is inserted. A column the constructor was not given (`None` here)
      takes its column default; `created_at` and `updated_at` always take theirs, one `utcnow()` reading each. */
  function NewTask(
    id: Uuid, title: string, description: Option<string>, assignee: string,
    status: Option<string>, priority: Option<string>, category: Option<string>,
    dueDate: Option<DateTime>, createdBy: string,
    createdClock: DateTime, updatedClock: DateTime): (t: Task)
    ensures t.id == id && t.title == title && t.description == description && t.assignee == assignee
    ensures t.dueDate == dueDate && t.createdBy == createdBy
    ensures t.status == (if status.None? then "backlog" else status.value)
    ensures t.priority == (if priority.None? then "medium" else priority.value)
    ensures t.category == (if category.None? then "dev" else category.value)
    ensures t.createdAt == createdClock && t.updatedAt == updatedClock
  {
    Task(id, title, description, assignee,
         status.GetOr(DEFAULT_STATUS), priority.GetOr(DEFAULT_PRIORITY), category.GetOr(DEFAULT_CATEGORY),
         createdClock, updatedClock, dueDate, createdBy)
  }

  /** The in-memory ORM object before a flush. Attribute assignment can put `None` in any string column; the
      NOT NULL constraints are only checked when the row is written. */
  datatype Draft = Draft(
    id: Uuid,
    title: Option<string>,
    description: Option<string>,
    assignee: Option<string>,
    status: Option<string>,
    priority: Option<string>,
    category: Option<string>,
    createdAt: DateTime,
    updatedAt: DateTime,
    dueDate: Option<DateTime>,
    createdBy: string)

  /** The object a stored row is loaded into. */
  function Load(t: Task): (d: Draft)
    ensures d.title == Some(t.title) && d.assignee == Some(t.assignee) && d.status == Some(t.status)
    ensures d.priority == Some(t.priority) && d.category == Some(t.category)
    ensures d.id == t.id && d.description == t.description && d.dueDate == t.dueDate
    ensures d.createdAt == t.createdAt && d.updatedAt == t.updatedAt && d.createdBy == t.createdBy
  {
    Draft(t.id, Some(t.title), t.description, Some(t.assignee), Some(t.status), Some(t.priority), Some(t.category),
          t.createdAt, t.updatedAt, t.dueDate, t.createdBy)
  }

  /** Writing an object back: the row it becomes, or `None` when a NOT NULL or VARCHAR(n) constraint rejects it. */
  function Flush(d: Draft): (r: Option<Task>)
    ensures r.Some? <==>
      && d.title.Some? && d.assignee.Some? && d.status.Some? && d.priority.Some? && d.category.Some?
      && |d.title.value| <= 255 && |d.assignee.value| <= 50 && |d.status.value| <= 50
      && |d.priority.value| <= 20 && |d.category.value| <= 50 && |d.createdBy| <= 50
    ensures r.Some? ==> Fits(r.value) && Load(r.value) == d
  {
    if d.title.None? || d.assignee.None? || d.status.None? || d.priority.None? || d.category.None? then None
    else
      var t := Task(d.id, d.title.value, d.description, d.assignee.value, d.status.value, d.priority.value,
                    d.category.value, d.createdAt, d.updatedAt, d.dueDate, d.createdBy);
      if Fits(t) then Some(t) else None
  }

  /** A row that respects the bounds survives being loaded and written back unchanged. */
  lemma FlushLoad(t: Task)
    ensures Flush(Load(t)) == (if Fits(t) then Some(t) else None)
  {
  }

  // ---------------------------------------------------------------------------------------------------------------
  // to_dict
  // ---------------------------------------------------------------------------------------------------------------

  const TASK_KEYS: set<string> := {"id", "title", "description", "assignee", "status", "priority", "category",
                                   "created_at", "updated_at", "due_date", "created_by"}

  function TextOrNull(s: Option<string>): (v: Value)
    ensures v == Null <==> s.None?
    ensures s.Some? ==> v == Str(s.value)
  {
    match s
    case None => Null
    case Some(v) => Str(v)
  }

  function IsoOrNull(d: Option<DateTime>): (v: Value)
    ensures v == Null <==> d.None?
    ensures d.Some? ==> v == Str(IsoFormat(d.value))
  {
    match d
    case None => Null
    case Some(v) => Str(IsoFormat(v))
  }

  /** The JSON object with the eleven keys of a task, each holding the given value. */
  function TaskObject(id: Value, title: Value, description: Value, assignee: Value, status: Value, priority: Value,
                      category: Value, createdAt: Value, updatedAt: Value, dueDate: Value, createdBy: Value): (o: Object)
    ensures o.Keys == TASK_KEYS
    ensures o["id"] == id && o["title"] == title && o["description"] == description && o["assignee"] == assignee
    ensures o["status"] == status && o["priority"] == priority && o["category"] == category
    ensures o["created_at"] == createdAt && o["updated_at"] == updatedAt && o["due_date"] == dueDate
    ensures o["created_by"] == createdBy
  {
    map[
      "id" := id,
      "title" := title,
      "description" := description,
      "assignee" := assignee,
      "status" := status,
      "priority" := priority,
      "category" := category,
      "created_at" := createdAt,
      "updated_at" := updatedAt,
      "due_date" := dueDate,
      "created_by" := createdBy
    ]
  }

  /** `Task.to_dict()`: the eleven-key JSON object of a row. */
  function ToDict(t: Task): (o: Object)
    ensures o.Keys == TASK_KEYS
    ensures o["id"] == Str(UuidText(t.id))
    ensures o["title"] == Str(t.title) && o["assignee"] == Str(t.assignee) && o["status"] == Str(t.status)
    ensures o["priority"] == Str(t.priority) && o["category"] == Str(t.category)
    ensures o["created_by"] == Str(t.createdBy)
    ensures o["description"] == Null <==> t.description.None?
    ensures t.description.Some? ==> o["description"] == Str(t.description.value)
    ensures o["created_at"] == Str(IsoFormat(t.createdAt)) && o["updated_at"] == Str(IsoFormat(t.updatedAt))
    ensures o["due_date"] == Null <==> t.dueDate.None?
    ensures t.dueDate.Some? ==> o["due_date"] == Str(IsoFormat(t.dueDate.value))
  {
    TaskObject(Str(UuidText(t.id)), Str(t.title), TextOrNull(t.description), Str(t.assignee), Str(t.status),
               Str(t.priority), Str(t.category), Str(IsoFormat(t.createdAt)), Str(IsoFormat(t.updatedAt)),
               IsoOrNull(t.dueDate), Str(t.createdBy))
  }

  /** The JSON object determines the row: `to_dict` drops no information. */
  lemma ToDictInjective(a: Task, b: Task)
    requires ToDict(a) == ToDict(b)
    ensures a == b
  {
    var oa, ob := ToDict(a), ToDict(b);
    assert UuidText(a.id) == UuidText(b.id) by {
      assert oa["id"] == ob["id"];
    }
    UuidTextInjective(a.id, b.id);
    assert IsoFormat(a.createdAt) == IsoFormat(b.createdAt) by {
      assert oa["created_at"] == ob["created_at"];
    }
    IsoFormatInjective(a.createdAt, b.createdAt);
    assert IsoFormat(a.updatedAt) == IsoFormat(b.updatedAt) by {
      assert oa["updated_at"] == ob["updated_at"];
    }
    IsoFormatInjective(a.updatedAt, b.updatedAt);
    assert a.description == b.description by {
      assert oa["description"] == ob["description"];
    }
    assert a.dueDate == b.dueDate by {
      assert oa["due_date"] == ob["due_date"];
      if a.dueDate.Some? {
        IsoFormatInjective(a.dueDate.value, b.dueDate.value);
      }
    }
    assert a.title == b.title && a.assignee == b.assignee && a.status == b.status by {
      assert oa["title"] == ob["title"] && oa["assignee"] == ob["assignee"] && oa["status"] == ob["status"];
    }
    assert a.priority == b.priority && a.category == b.category && a.createdBy == b.createdBy by {
      assert oa["priority"] == ob["priority"] && oa["category"] == ob["category"];
      assert oa["created_by"] == ob["created_by"];
    }
  }
}
