/** The command-line client: how `main` reads `--flag VALUE` pairs out of the argument vector, the defaults it fills
    in for `create`, and the query parameters and JSON bodies it sends. The HTTP calls and all printing are left out:
    the client's behaviour is the request it decides to send, or the exit status it stops with. */
module Cli {
  import opened Wrappers
  import opened Json
  import Models
  import Ordering
  import Api

  // ---------------------------------------------------------------------------------------------------------------
  // Scanning the argument vector
  // ---------------------------------------------------------------------------------------------------------------

  /** The token at `p` is `flag` and a token follows it: the loops' `arg == flag and i + offset < len(sys.argv)`. */
  predicate SetsAt(argv: seq<string>, p: int, flag: string) {
    0 <= p && p + 1 < |argv| && argv[p] == flag
  }

  /** `p` is the last position before `end` that sets `flag`. */
  predicate LastSettingBefore(argv: seq<string>, p: int, end: int, flag: string) {
    SetsAt(argv, p, flag) && forall q :: p < q < end ==> !SetsAt(argv, q, flag)
  }

  /** The value that scanning the tokens at positions `start` up to `end` leaves for `flag`: the token after its last
      occurrence that has one, or `None`. */
  function LastValue(argv: seq<string>, start: nat, end: nat, flag: string): Option<string>
    requires start <= end <= |argv|
    decreases end - start
  {
    if end == start then None
    else if SetsAt(argv, end - 1, flag) then Some(argv[end])
    else LastValue(argv, start, end - 1, flag)
  }

  /** The scan leaves no value exactly when no position sets the flag, and otherwise the value after the last
      position that does. */
  lemma {:induction false} LastValueIsLastSetting(argv: seq<string>, start: nat, end: nat, flag: string)
    requires start <= end <= |argv|
    ensures LastValue(argv, start, end, flag).None? <==> forall p :: start <= p < end ==> !SetsAt(argv, p, flag)
    ensures forall p :: start <= p < end && LastSettingBefore(argv, p, end, flag) ==>
      LastValue(argv, start, end, flag) == Some(argv[p + 1])
    decreases end - start
  {
    if end > start {
      LastValueIsLastSetting(argv, start, end - 1, flag);
      forall p | start <= p < end && LastSettingBefore(argv, p, end, flag)
        ensures LastValue(argv, start, end, flag) == Some(argv[p + 1])
      {
        if p < end - 1 {
          assert !SetsAt(argv, end - 1, flag);
          assert LastSettingBefore(argv, p, end - 1, flag);
        }
      }
    }
  }

  /** A flag given again later overrides the earlier value. */
  lemma LaterFlagWins(argv: seq<string>, start: nat, flag: string, v: string)
    requires start <= |argv|
    ensures LastValue(argv + [flag, v], start, |argv| + 2, flag) == Some(v)
  {
    var extended := argv + [flag, v];
    assert SetsAt(extended, |argv|, flag);
    assert LastValue(extended, start, |argv| + 1, flag) == Some(v);
  }

  /** The last token is never read as a flag: a flag in the last position has no value after it and is ignored. */
  lemma TrailingFlagIgnored(argv: seq<string>, start: nat, flag: string)
    requires start < |argv|
    ensures LastValue(argv, start, |argv|, flag) == LastValue(argv, start, |argv| - 1, flag)
  {
    assert !SetsAt(argv, |argv| - 1, flag);
  }

  // ---------------------------------------------------------------------------------------------------------------
  // The three scanning loops of `main`
  // ---------------------------------------------------------------------------------------------------------------

  /** `list`: the flags after the command, `--assignee` and `--status`, each `None` unless given. */
  method ListArgs(argv: seq<string>) returns (assignee: Option<string>, status: Option<string>)
    requires |argv| >= 2
    ensures assignee == LastValue(argv, 2, |argv|, "--assignee")
    ensures status == LastValue(argv, 2, |argv|, "--status")
  {
    assignee, status := None, None;
    for i := 0 to |argv| - 2
      invariant assignee == LastValue(argv, 2, 2 + i, "--assignee")
      invariant status == LastValue(argv, 2, 2 + i, "--status")
    {
      var arg := argv[2 + i];
      if arg == "--assignee" && i + 3 < |argv| {
        assignee := Some(argv[i + 3]);
      }
      if arg == "--status" && i + 3 < |argv| {
        status := Some(argv[i + 3]);
      }
    }
  }

  /** The defaults of `create` when a flag is not given. */
  const CLI_ASSIGNEE := "mira"
  const CLI_STATUS := "backlog"
  const CLI_PRIORITY := "medium"
  const CLI_CATEGORY := "dev"
  /** `create_task`'s default for `created_by`, which `main` never overrides. */
  const CLI_CREATOR := "cli"

  /** `create`: the flags after the title; each value is the last one given, or the default. */
  method CreateArgs(argv: seq<string>)
    returns (description: Option<string>, assignee: string, status: string, priority: string, category: string)
    requires |argv| >= 3
    ensures description == LastValue(argv, 3, |argv|, "--description")
    ensures assignee == LastValue(argv, 3, |argv|, "--assignee").GetOr(CLI_ASSIGNEE)
    ensures status == LastValue(argv, 3, |argv|, "--status").GetOr(CLI_STATUS)
    ensures priority == LastValue(argv, 3, |argv|, "--priority").GetOr(CLI_PRIORITY)
    ensures category == LastValue(argv, 3, |argv|, "--category").GetOr(CLI_CATEGORY)
  {
    description := None;
    assignee, status, priority, category := CLI_ASSIGNEE, CLI_STATUS, CLI_PRIORITY, CLI_CATEGORY;
    for i := 0 to |argv| - 3
      invariant description == LastValue(argv, 3, 3 + i, "--description")
      invariant assignee == LastValue(argv, 3, 3 + i, "--assignee").GetOr(CLI_ASSIGNEE)
      invariant status == LastValue(argv, 3, 3 + i, "--status").GetOr(CLI_STATUS)
      invariant priority == LastValue(argv, 3, 3 + i, "--priority").GetOr(CLI_PRIORITY)
      invariant category == LastValue(argv, 3, 3 + i, "--category").GetOr(CLI_CATEGORY)
    {
      var arg := argv[3 + i];
      if arg == "--description" && i + 4 < |argv| {
        description := Some(argv[i + 4]);
      }
      if arg == "--assignee" && i + 4 < |argv| {
        assignee := argv[i + 4];
      }
      if arg == "--status" && i + 4 < |argv| {
        status := argv[i + 4];
      }
      if arg == "--priority" && i + 4 < |argv| {
        priority := argv[i + 4];
      }
      if arg == "--category" && i + 4 < |argv| {
        category := argv[i + 4];
      }
    }
  }

  /** With no flags after the title, `create` sends the defaults and no description. */
  lemma CreateWithoutFlags(argv: seq<string>)
    requires |argv| == 3
    ensures LastValue(argv, 3, 3, "--description") == None
    ensures LastValue(argv, 3, 3, "--assignee").GetOr(CLI_ASSIGNEE) == "mira"
    ensures LastValue(argv, 3, 3, "--status").GetOr(CLI_STATUS) == "backlog"
    ensures LastValue(argv, 3, 3, "--priority").GetOr(CLI_PRIORITY) == "medium"
    ensures LastValue(argv, 3, 3, "--category").GetOr(CLI_CATEGORY) == "dev"
  {
  }

  /** `key` is in `m` exactly when `o` has a value, and then maps to it. */
  predicate Holds(m: map<string, string>, key: string, o: Option<string>) {
    (key in m <==> o.Some?) && (key in m ==> m[key] == o.value)
  }

  /** The keys `update` can put in `kwargs`. */
  const UPDATE_KEYS: set<string> := {"status", "assignee", "priority", "title"}

  /** `kwargs` after scanning up to `end`: the last value of each of the four flags, under the flag's name. */
  predicate KwargsAfter(argv: seq<string>, end: nat, kwargs: map<string, string>)
    requires 3 <= end <= |argv|
  {
    && kwargs.Keys <= UPDATE_KEYS
    && Holds(kwargs, "status", LastValue(argv, 3, end, "--status"))
    && Holds(kwargs, "assignee", LastValue(argv, 3, end, "--assignee"))
    && Holds(kwargs, "priority", LastValue(argv, 3, end, "--priority"))
    && Holds(kwargs, "title", LastValue(argv, 3, end, "--title"))
  }

  /** `update`: the flags after the id, collected into `kwargs`. */
  method UpdateArgs(argv: seq<string>) returns (kwargs: map<string, string>)
    requires |argv| >= 3
    ensures KwargsAfter(argv, |argv|, kwargs)
  {
    kwargs := map[];
    for i := 0 to |argv| - 3
      invariant KwargsAfter(argv, 3 + i, kwargs)
    {
      var arg := argv[3 + i];
      if arg == "--status" && i + 4 < |argv| {
        kwargs := kwargs["status" := argv[i + 4]];
      }
      if arg == "--assignee" && i + 4 < |argv| {
        kwargs := kwargs["assignee" := argv[i + 4]];
      }
      if arg == "--priority" && i + 4 < |argv| {
        kwargs := kwargs["priority" := argv[i + 4]];
      }
      if arg == "--title" && i + 4 < |argv| {
        kwargs := kwargs["title" := argv[i + 4]];
      }
    }
  }

  // ---------------------------------------------------------------------------------------------------------------
  // Query parameters and request bodies
  // ---------------------------------------------------------------------------------------------------------------

  /** Python's truth value of an optional string: `None` and `""` are false. */
  predicate Truthy(o: Option<string>) {
    o.Some? && o.value != ""
  }

  /** The parameters `list_tasks` builds: each argument that is truthy, under its own name, and nothing else. */
  predicate IsListParams(params: map<string, string>, assignee: Option<string>, status: Option<string>) {
    && params.Keys <= {"assignee", "status"}
    && Holds(params, "assignee", if Truthy(assignee) then assignee else None)
    && Holds(params, "status", if Truthy(status) then status else None)
  }

  /** `list_tasks`: the query parameters, written one by one. */
  method ListParams(assignee: Option<string>, status: Option<string>) returns (params: map<string, string>)
    ensures IsListParams(params, assignee, status)
  {
    params := map[];
    if Truthy(assignee) {
      params := params["assignee" := assignee.value];
    }
    if Truthy(status) {
      params := params["status" := status.value];
    }
  }

  /** The optional value of a query parameter, as the service reads it. */
  function Lookup(params: map<string, string>, key: string): (o: Option<string>)
    ensures o.Some? <==> key in params
    ensures o.Some? ==> o.value == params[key]
  {
    if key in params then Some(params[key]) else None
  }

  /** The list query the service reads from the parameters. */
  function QueryOf(params: map<string, string>): Api.ListQuery {
    Api.ListQuery(Lookup(params, "assignee"), Lookup(params, "status"), Lookup(params, "category"))
  }

  /** Leaving out the empty arguments changes nothing: the service lists the same rows it would list for the
      arguments as given, because it ignores empty filters too. */
  lemma ListParamsSameListing(rows: Ordering.Table, params: map<string, string>, assignee: Option<string>,
                              status: Option<string>)
    requires Api.Keyed(rows)
    requires IsListParams(params, assignee, status)
    ensures Api.ListTasks(rows, QueryOf(params)) == Api.ListTasks(rows, Api.ListQuery(assignee, status, None))
  {
    var q1, q2 := QueryOf(params), Api.ListQuery(assignee, status, None);
    assert Api.Active(q1.assignee) <==> Api.Active(q2.assignee);
    assert Api.Active(q1.status) <==> Api.Active(q2.status);
    assert !Api.Active(q1.category);
    assert forall k :: k in rows ==> (Api.Matches(rows[k], q1) <==> Api.Matches(rows[k], q2));
    assert Api.Selected(rows, q1) == Api.Selected(rows, q2);
  }

  /** The JSON body `create_task` sends: the seven keys, `description` null when there is none. */
  function CreatePayload(title: string, description: Option<string>, assignee: string, status: string,
                         priority: string, category: string, createdBy: string): (data: Object)
    ensures data.Keys == {"title", "description", "assignee", "status", "priority", "category", "created_by"}
    ensures forall k :: k in data && k != "description" ==> data[k].Str?
  {
    map[
      "title" := Str(title),
      "description" := if description.Some? then Str(description.value) else Null,
      "assignee" := Str(assignee),
      "status" := Str(status),
      "priority" := Str(priority),
      "category" := Str(category),
      "created_by" := Str(createdBy)]
  }

  /** The body filtered of `None` values, the JSON body `update_task` sends. */
  function UpdatePayload(kwargs: map<string, Option<string>>): (data: Object)
    ensures data.Keys == set k | k in kwargs && kwargs[k].Some?
    ensures forall k :: k in data ==> data[k] == Str(kwargs[k].value)
  {
    map k | k in kwargs && kwargs[k].Some? :: Str(kwargs[k].value)
  }

  /** `**kwargs`: the collected values as `update_task` receives them. */
  function Passed(kwargs: map<string, string>): map<string, Option<string>> {
    map k | k in kwargs :: Some(kwargs[k])
  }

  /** The values `main` passes are never `None`, so the filter drops nothing: every collected value is sent. */
  lemma UpdatePayloadFromArgs(kwargs: map<string, string>)
    ensures UpdatePayload(Passed(kwargs)) == map k | k in kwargs :: Str(kwargs[k])
  {
  }

  // ---------------------------------------------------------------------------------------------------------------
  // What the service makes of the bodies
  // ---------------------------------------------------------------------------------------------------------------

  /** A text field of a JSON body, as the validator sees it. */
  function TextField(data: Object, key: string): (f: Api.Field<string>)
    ensures f.Absent? <==> key !in data
    ensures f.Null? <==> key in data && data[key] == Null
    ensures f.Given? ==> data[key] == Str(f.value)
  {
    if key !in data then Api.Absent else if data[key].Null? then Api.Null else Api.Given(data[key].text)
  }

  /** A create body without `due_date` (the client never sends one; reading a date from text is not part of this
      model), as the validator sees it. */
  function CreateBodyOf(data: Object): Api.CreateBody
    requires "due_date" !in data
  {
    Api.CreateBody(TextField(data, "title"), TextField(data, "description"), TextField(data, "assignee"),
                   TextField(data, "status"), TextField(data, "priority"), TextField(data, "category"), Api.Absent,
                   TextField(data, "created_by"))
  }

  /** The client's create body always passes validation, and the task it describes is the one the flags gave. */
  lemma CreatePayloadAccepted(title: string, description: Option<string>, assignee: string, status: string,
                              priority: string, category: string)
    ensures var body := CreateBodyOf(CreatePayload(title, description, assignee, status, priority, category, CLI_CREATOR));
      Api.ValidateCreate(body) == Success(Api.TaskCreate(title, description, assignee, status, priority, category,
                                                         None, CLI_CREATOR))
  {
    var data := CreatePayload(title, description, assignee, status, priority, category, CLI_CREATOR);
    assert TextField(data, "description") == (if description.Some? then Api.Given(description.value) else Api.Null);
    assert TextField(data, "title") == Api.Given(title);
    assert TextField(data, "assignee") == Api.Given(assignee);
    assert TextField(data, "status") == Api.Given(status);
    assert TextField(data, "priority") == Api.Given(priority);
    assert TextField(data, "category") == Api.Given(category);
    assert TextField(data, "created_by") == Api.Given(CLI_CREATOR);
  }

  /** An update body without `due_date`, as the validator sees it. */
  function UpdateBodyOf(data: Object): Api.UpdateBody
    requires "due_date" !in data
  {
    Api.UpdateBody(TextField(data, "title"), TextField(data, "description"), TextField(data, "assignee"),
                   TextField(data, "status"), TextField(data, "priority"), TextField(data, "category"), Api.Absent)
  }

  /** An update from the client never clears a column and never touches description, category or due date, so the
      service refuses it only for a value longer than its column. */
  lemma UpdateFromArgsNeverClears(kwargs: map<string, string>, t: Models.Task, now: Models.DateTime)
    requires kwargs.Keys <= UPDATE_KEYS
    requires Models.Fits(t)
    ensures "due_date" !in UpdatePayload(Passed(kwargs))
    ensures var body := UpdateBodyOf(UpdatePayload(Passed(kwargs)));
      && !body.title.Null? && !body.assignee.Null? && !body.status.Null? && !body.priority.Null?
      && body.description.Absent? && body.category.Absent? && body.dueDate.Absent?
      && (Api.Patched(t, body, now).Some? <==>
          Api.FitsIn(body.title, 255) && Api.FitsIn(body.assignee, 50) && Api.FitsIn(body.status, 50)
          && Api.FitsIn(body.priority, 20))
  {
    var data := UpdatePayload(Passed(kwargs));
    assert forall k :: k in data ==> k in UPDATE_KEYS && data[k].Str?;
    assert "due_date" !in data && "description" !in data && "category" !in data;
  }

  // ---------------------------------------------------------------------------------------------------------------
  // `main`
  // ---------------------------------------------------------------------------------------------------------------

  /** The request the client sends. */
  datatype Request =
    | ListRequest(params: map<string, string>)
    | CreateRequest(body: Object)
    | UpdateRequest(taskId: string, body: Object)
    | DeleteRequest(taskId: string)
    | StatsRequest

  /** How a run ends: `sys.exit(code)` before any request, or one request sent. */
  datatype Outcome = Exit(code: nat) | Send(request: Request)

  const COMMANDS: set<string> := {"list", "create", "update", "delete", "stats"}

  /** The body `update` sends for the arguments: the last value of each flag given. */
  ghost predicate UpdateBodyFor(argv: seq<string>, data: Object)
    requires |argv| >= 3
  {
    exists kwargs :: KwargsAfter(argv, |argv|, kwargs) && data == UpdatePayload(Passed(kwargs))
  }

  /** `main`: usage error without a command, error for an unknown command or a missing title or id, and otherwise
      the one request of the command. */
  method Run(argv: seq<string>) returns (outcome: Outcome)
    ensures outcome.Exit? <==>
      |argv| < 2 || argv[1] !in COMMANDS || (argv[1] in {"create", "update", "delete"} && |argv| < 3)
    ensures outcome.Exit? ==> outcome.code == 1
    ensures |argv| >= 2 && argv[1] == "list" ==>
      && outcome.Send? && outcome.request.ListRequest?
      && IsListParams(outcome.request.params, LastValue(argv, 2, |argv|, "--assignee"),
                      LastValue(argv, 2, |argv|, "--status"))
    ensures |argv| >= 3 && argv[1] == "create" ==>
      outcome == Send(CreateRequest(CreatePayload(
        argv[2],
        LastValue(argv, 3, |argv|, "--description"),
        LastValue(argv, 3, |argv|, "--assignee").GetOr(CLI_ASSIGNEE),
        LastValue(argv, 3, |argv|, "--status").GetOr(CLI_STATUS),
        LastValue(argv, 3, |argv|, "--priority").GetOr(CLI_PRIORITY),
        LastValue(argv, 3, |argv|, "--category").GetOr(CLI_CATEGORY),
        CLI_CREATOR)))
    ensures |argv| >= 3 && argv[1] == "update" ==>
      && outcome.Send? && outcome.request.UpdateRequest? && outcome.request.taskId == argv[2]
      && UpdateBodyFor(argv, outcome.request.body)
    ensures |argv| >= 3 && argv[1] == "delete" ==> outcome == Send(DeleteRequest(argv[2]))
    ensures |argv| >= 2 && argv[1] == "stats" ==> outcome == Send(StatsRequest)
  {
    if |argv| < 2 {
      return Exit(1);
    }
    var command := argv[1];
    if command == "list" {
      var assignee, status := ListArgs(argv);
      var params := ListParams(assignee, status);
      outcome := Send(ListRequest(params));
    } else if command == "create" {
      if |argv| < 3 {
        return Exit(1);
      }
      var title := argv[2];
      var description, assignee, status, priority, category := CreateArgs(argv);
      outcome := Send(CreateRequest(CreatePayload(title, description, assignee, status, priority, category, CLI_CREATOR)));
    } else if command == "update" {
      if |argv| < 3 {
        return Exit(1);
      }
      var taskId := argv[2];
      var kwargs := UpdateArgs(argv);
      outcome := Send(UpdateRequest(taskId, UpdatePayload(Passed(kwargs))));
    } else if command == "delete" {
      if |argv| < 3 {
        return Exit(1);
      }
      outcome := Send(DeleteRequest(argv[2]));
    } else if command == "stats" {
      outcome := Send(StatsRequest);
    } else {
      outcome := Exit(1);
    }
  }
}
