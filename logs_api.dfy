/** The activity-log client (src/lib/logs-api.ts): the query string each
    request builds with `URLSearchParams.set`, and the fixed message each
    failure throws. The query is a list of name/value entries; URL encoding
    is not modelled. */
module LogsApi {
  import opened Wrappers
  import opened Text
  import opened ClientHttp

  const LogsApiUrl := "https://functions.poehali.dev/348afac0-d112-4953-b5da-6eafc2cf5bec"

  /** The optional filters of `getLogs`; an absent one is `None`. */
  datatype LogsParams = LogsParams(search: Option<string>, actionType: Option<string>, user: Option<string>,
                                   sortBy: Option<string>, sortOrder: Option<string>)

  /** The log entry `createLog` posts, as its JSON body. */
  datatype NewLog = NewLog(actionType: string, actionDescription: string,
                           targetType: Option<string>, targetId: Option<int>)

  /** A request to the logs endpoint: method, query entries, and body. */
  datatype LogsRequest = LogsRequest(httpMethod: string, query: Entries<string>, body: Option<NewLog>)

  const GetLogsKeys := {"resource", "search", "action_type", "user", "sort_by", "sort_order"}

  /** JavaScript truthiness of an optional string: defined and not empty. */
  function Given(o: Option<string>): (r: Option<string>)
    ensures r.Some? <==> o.Some? && o.value != ""
    ensures r.Some? ==> r == o
  {
    if o.Some? && o.value != "" then o else None
  }

  /** `if (value) queryParams.set(key, value)` */
  method SetIfGiven(query: Entries<string>, key: string, value: Option<string>, keys: set<string>)
    returns (r: Entries<string>)
    requires UniqueKeys(query)
    ensures UniqueKeys(r)
    ensures Lookup(r, key) == if Given(value).Some? then Given(value) else Lookup(query, key)
    ensures forall k :: k != key ==> Lookup(r, k) == Lookup(query, k)
    ensures (forall i :: 0 <= i < |query| ==> query[i].0 in keys) && key in keys ==>
      forall i :: 0 <= i < |r| ==> r[i].0 in keys
  {
    r := query;
    if Given(value).Some? {
      SetEntryKeepsKeysUnique(query, key, value.value);
      r := SetEntry(query, key, value.value);
      assert forall i :: 0 <= i < |r| ==> r[i].0 == Keys(r)[i];
      assert forall i :: 0 <= i < |query| ==> query[i].0 == Keys(query)[i];
    }
  }

  /** `getLogs(params)`: `resource=logs` always, then each filter that is
      given and non-empty under its own name, and nothing else. */
  method GetLogs(params: Option<LogsParams>) returns (r: LogsRequest)
    ensures r.httpMethod == "GET" && r.body.None?
    ensures UniqueKeys(r.query)
    ensures Lookup(r.query, "resource") == Some("logs")
    ensures Lookup(r.query, "search") == if params.Some? then Given(params.value.search) else None
    ensures Lookup(r.query, "action_type") == if params.Some? then Given(params.value.actionType) else None
    ensures Lookup(r.query, "user") == if params.Some? then Given(params.value.user) else None
    ensures Lookup(r.query, "sort_by") == if params.Some? then Given(params.value.sortBy) else None
    ensures Lookup(r.query, "sort_order") == if params.Some? then Given(params.value.sortOrder) else None
    ensures forall i :: 0 <= i < |r.query| ==> r.query[i].0 in GetLogsKeys
  {
    var q: Entries<string> := SetEntry([], "resource", "logs");
    assert q == [("resource", "logs")];
    if params.Some? {
      q := SetFilters(q, params.value);
    }
    r := LogsRequest("GET", q, None);
  }

  /** The five `if (params.x) queryParams.set('x', params.x)` steps. */
  method SetFilters(query: Entries<string>, p: LogsParams) returns (q: Entries<string>)
    requires query == [("resource", "logs")]
    ensures UniqueKeys(q)
    ensures Lookup(q, "resource") == Some("logs")
    ensures Lookup(q, "search") == Given(p.search)
    ensures Lookup(q, "action_type") == Given(p.actionType)
    ensures Lookup(q, "user") == Given(p.user)
    ensures Lookup(q, "sort_by") == Given(p.sortBy)
    ensures Lookup(q, "sort_order") == Given(p.sortOrder)
    ensures forall i :: 0 <= i < |q| ==> q[i].0 in GetLogsKeys
  {
    var q1 := SetIfGiven(query, "search", p.search, GetLogsKeys);
    var q2 := SetIfGiven(q1, "action_type", p.actionType, GetLogsKeys);
    assert Lookup(query, "search") == None && Lookup(query, "action_type") == None && Lookup(query, "user") == None;
    assert Lookup(query, "sort_by") == None && Lookup(query, "sort_order") == None;
    assert Lookup(q2, "resource") == Lookup(q1, "resource") == Lookup(query, "resource");
    assert Lookup(q2, "search") == Lookup(q1, "search");
    assert Lookup(q2, "user") == Lookup(q1, "user") == None;
    assert Lookup(q2, "sort_by") == Lookup(q1, "sort_by") == None;
    assert Lookup(q2, "sort_order") == Lookup(q1, "sort_order") == None;
    q := SetLaterFilters(q2, p);
  }

  /** The last three steps of `SetFilters`: user, sort_by and sort_order. */
  method SetLaterFilters(query: Entries<string>, p: LogsParams) returns (q: Entries<string>)
    requires UniqueKeys(query)
    requires forall i :: 0 <= i < |query| ==> query[i].0 in GetLogsKeys
    requires Lookup(query, "user") == None && Lookup(query, "sort_by") == None && Lookup(query, "sort_order") == None
    ensures UniqueKeys(q)
    ensures Lookup(q, "user") == Given(p.user)
    ensures Lookup(q, "sort_by") == Given(p.sortBy)
    ensures Lookup(q, "sort_order") == Given(p.sortOrder)
    ensures forall k :: k != "user" && k != "sort_by" && k != "sort_order" ==> Lookup(q, k) == Lookup(query, k)
    ensures forall i :: 0 <= i < |q| ==> q[i].0 in GetLogsKeys
  {
    var q3 := SetIfGiven(query, "user", p.user, GetLogsKeys);
    var q4 := SetIfGiven(q3, "sort_by", p.sortBy, GetLogsKeys);
    q := SetIfGiven(q4, "sort_order", p.sortOrder, GetLogsKeys);
    assert Lookup(q4, "user") == Lookup(q3, "user");
    assert Lookup(q4, "sort_order") == Lookup(q3, "sort_order") == None;
  }

  /** `createLog(log)`: only `resource=logs` in the query, the entry as body. */
  function CreateLog(log: NewLog): (r: LogsRequest)
    ensures r.httpMethod == "POST" && r.body == Some(log)
    ensures Lookup(r.query, "resource") == Some("logs") && |r.query| == 1
  {
    LogsRequest("POST", SetEntry([], "resource", "logs"), Some(log))
  }

  /** `deleteLog(logId)`: `resource=logs` and the id as `log_id`. */
  function DeleteLog(logId: nat): (r: LogsRequest)
    ensures r.httpMethod == "DELETE" && r.body.None?
    ensures Lookup(r.query, "resource") == Some("logs") && Lookup(r.query, "log_id") == Some(NatToString(logId))
    ensures Lookup(r.query, "delete_all").None?
  {
    LogsRequest("DELETE", SetEntry(SetEntry([], "resource", "logs"), "log_id", NatToString(logId)), None)
  }

  /** `deleteAllLogs()`: `resource=logs` and `delete_all=true`, no id. */
  function DeleteAllLogs(): (r: LogsRequest)
    ensures r.httpMethod == "DELETE" && r.body.None?
    ensures Lookup(r.query, "resource") == Some("logs") && Lookup(r.query, "delete_all") == Some("true")
    ensures Lookup(r.query, "log_id").None?
  {
    LogsRequest("DELETE", SetEntry(SetEntry([], "resource", "logs"), "delete_all", "true"), None)
  }

  datatype Op = FetchLogs | CreateOne | DeleteOne | DeleteAll

  /** What a request throws when the reply is not `ok`: a fixed message per
      operation; the server's body is never read. */
  function FailureOf(op: Op): (r: Failure)
    ensures r.Thrown? && r.message != ""
  {
    Thrown(match op
      case FetchLogs => "Failed to fetch logs"
      case CreateOne => "Failed to create log"
      case DeleteOne => "Failed to delete log"
      case DeleteAll => "Failed to delete all logs")
  }
}
