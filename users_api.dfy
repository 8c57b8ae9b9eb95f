/** The user-administration client (src/lib/users-api.ts): the URL and body
    of each request, and the error each failure throws. Every request goes
    with the session cookie (`credentials: 'include'`) and no token. */
module UsersApi {
  import opened Wrappers
  import opened Text
  import opened ClientHttp

  const UsersApiUrl := "https://functions.poehali.dev/348afac0-d112-4953-b5da-6eafc2cf5bec"

  /** The optional fields `updateUser` may send. */
  datatype UpdateData = UpdateData(fullName: Option<string>, role: Option<string>, email: Option<string>,
                                   userId: Option<string>, password: Option<string>)

  /** The calls of `usersApi` whose request is a fixed shape; `updateUser`
      is `UpdateRequest` below. */
  datatype Call =
    | GetUsers(status: string)
    | Activate(userId: nat)
    | Deactivate(userId: nat)
    | Delete(userId: nat)

  /** `getUsers(status)`: the status goes in the query unless it is 'all'. */
  function GetUsersUrl(status: string): (r: string)
    ensures r == UsersApiUrl <==> status == "all"
    ensures status != "all" ==> r == UsersApiUrl + "?status=" + status
  {
    if status != "all" then UsersApiUrl + "?status=" + status else UsersApiUrl
  }

  const UpdateKeys := {"action", "user_id", "full_name", "role", "email", "new_user_id", "password"}

  function OptStr(o: Option<string>): Option<JsonValue> {
    if o.Some? then Some(JStr(o.value)) else None
  }

  /** `updateUser(userId, data)`: the body starts as `{ action: 'update',
      user_id }` and each defined field is assigned onto it in turn. The new
      public id travels as `new_user_id`, so the target `user_id` is never
      replaced. */
  method UpdateRequest(userId: nat, data: UpdateData) returns (r: Request)
    ensures r.httpMethod == "POST" && r.url == UsersApiUrl && r.body.Some?
    ensures UniqueKeys(r.body.value)
    ensures Lookup(r.body.value, "action") == Some(JStr("update"))
    ensures Lookup(r.body.value, "user_id") == Some(JNum(userId))
    ensures Lookup(r.body.value, "full_name") == OptStr(data.fullName)
    ensures Lookup(r.body.value, "role") == OptStr(data.role)
    ensures Lookup(r.body.value, "email") == OptStr(data.email)
    ensures Lookup(r.body.value, "new_user_id") == OptStr(data.userId)
    ensures Lookup(r.body.value, "password") == OptStr(data.password)
    ensures forall i :: 0 <= i < |r.body.value| ==> r.body.value[i].0 in UpdateKeys
  {
    assert "action"[0] == 'a' && "user_id"[0] == 'u' && "full_name"[0] == 'f' && "role"[0] == 'r';
    assert "email"[0] == 'e' && "new_user_id"[0] == 'n' && "password"[0] == 'p';
    var b0: Entries<JsonValue> := [("action", JStr("update")), ("user_id", JNum(userId))];
    assert b0[1..] == [("user_id", JNum(userId))];
    assert Lookup(b0, "full_name").None? && Lookup(b0, "role").None? && Lookup(b0, "email").None?;
    assert Lookup(b0, "new_user_id").None? && Lookup(b0, "password").None?;
    var b1 := AssignIfDefined(b0, "full_name", data.fullName);
    var b2 := AssignIfDefined(b1, "role", data.role);
    assert Lookup(b2, "action") == Lookup(b1, "action") && Lookup(b2, "user_id") == Lookup(b1, "user_id");
    assert Lookup(b2, "full_name") == Lookup(b1, "full_name");
    assert Lookup(b2, "email") == Lookup(b1, "email") && Lookup(b2, "new_user_id") == Lookup(b1, "new_user_id");
    assert Lookup(b2, "password") == Lookup(b1, "password");
    var body := AssignLaterFields(b2, data);
    r := Request("POST", UsersApiUrl, Some(body));
  }

  /** The last three assignments of `updateUser`: email, the new public id
      and the password. */
  method AssignLaterFields(body: Entries<JsonValue>, data: UpdateData) returns (r: Entries<JsonValue>)
    requires UniqueKeys(body)
    requires forall i :: 0 <= i < |body| ==> body[i].0 in UpdateKeys
    requires Lookup(body, "email").None? && Lookup(body, "new_user_id").None? && Lookup(body, "password").None?
    ensures UniqueKeys(r)
    ensures Lookup(r, "email") == OptStr(data.email)
    ensures Lookup(r, "new_user_id") == OptStr(data.userId)
    ensures Lookup(r, "password") == OptStr(data.password)
    ensures forall k :: k != "email" && k != "new_user_id" && k != "password" ==> Lookup(r, k) == Lookup(body, k)
    ensures forall i :: 0 <= i < |r| ==> r[i].0 in UpdateKeys
  {
    var b3 := AssignIfDefined(body, "email", data.email);
    var b4 := AssignIfDefined(b3, "new_user_id", data.userId);
    r := AssignIfDefined(b4, "password", data.password);
    assert Lookup(b4, "email") == Lookup(b3, "email");
    assert Lookup(b4, "password") == Lookup(b3, "password");
  }

  /** `if (value !== undefined) bodyData[key] = value` */
  method AssignIfDefined(body: Entries<JsonValue>, key: string, value: Option<string>)
    returns (r: Entries<JsonValue>)
    requires UniqueKeys(body)
    ensures UniqueKeys(r)
    ensures Lookup(r, key) == if value.Some? then Some(JStr(value.value)) else Lookup(body, key)
    ensures forall k :: k != key ==> Lookup(r, k) == Lookup(body, k)
    ensures (forall i :: 0 <= i < |body| ==> body[i].0 in UpdateKeys) && key in UpdateKeys ==>
      forall i :: 0 <= i < |r| ==> r[i].0 in UpdateKeys
  {
    r := body;
    if value.Some? {
      SetEntryKeepsKeysUnique(body, key, JStr(value.value));
      r := SetEntry(body, key, JStr(value.value));
      assert forall i :: 0 <= i < |r| ==> r[i].0 == Keys(r)[i];
      assert forall i :: 0 <= i < |body| ==> body[i].0 == Keys(body)[i];
    }
  }

  /** The request each call sends. */
  function RequestOf(c: Call): (r: Request)
    ensures c.GetUsers? ==> r == Request("GET", GetUsersUrl(c.status), None)
    ensures c.Activate? ==>
      r.httpMethod == "POST" && r.url == UsersApiUrl && r.body.Some?
      && Lookup(r.body.value, "action") == Some(JStr("activate")) && Lookup(r.body.value, "user_id") == Some(JNum(c.userId))
    ensures c.Deactivate? ==>
      r.httpMethod == "POST" && r.url == UsersApiUrl && r.body.Some?
      && Lookup(r.body.value, "action") == Some(JStr("deactivate")) && Lookup(r.body.value, "user_id") == Some(JNum(c.userId))
    ensures c.Delete? ==> r == Request("DELETE", UsersApiUrl + "?user_id=" + NatToString(c.userId), None)
  {
    match c
    case GetUsers(status) => Request("GET", GetUsersUrl(status), None)
    case Activate(id) => Request("POST", UsersApiUrl, Some([("action", JStr("activate")), ("user_id", JNum(id))]))
    case Deactivate(id) => Request("POST", UsersApiUrl, Some([("action", JStr("deactivate")), ("user_id", JNum(id))]))
    case Delete(id) => Request("DELETE", UsersApiUrl + "?user_id=" + NatToString(id), None)
  }

  /** The fixed message each call throws when the server gives none. */
  function Fallback(c: Call): (r: string)
    ensures r != ""
  {
    match c
    case GetUsers(_) => "Failed to fetch users"
    case Activate(_) => "Failed to activate user"
    case Deactivate(_) => "Failed to deactivate user"
    case Delete(_) => "Failed to delete user"
  }

  const UpdateFallback := "Failed to update user"

  /** What a call throws on a reply that is not `ok`: the parse of a body
      that is not JSON throws; otherwise the server's non-empty `error`, or
      the call's fixed message. */
  function FailureOf(c: Call, body: Option<Entries<JsonValue>>): (r: Failure)
    ensures body.None? <==> r == SyntaxError
    ensures body.Some? && ErrorField(body.value) != "" ==> r == Thrown(ErrorField(body.value))
    ensures body.Some? && ErrorField(body.value) == "" ==> r == Thrown(Fallback(c)) && r.message != ""
  {
    ServerFailure(body, Fallback(c))
  }

  /** The same for `updateUser`, whose fixed message is 'Failed to update
      user'. */
  function UpdateFailureOf(body: Option<Entries<JsonValue>>): (r: Failure)
    ensures body.None? <==> r == SyntaxError
    ensures body.Some? && ErrorField(body.value) != "" ==> r == Thrown(ErrorField(body.value))
    ensures body.Some? && ErrorField(body.value) == "" ==> r == Thrown(UpdateFallback)
  {
    ServerFailure(body, UpdateFallback)
  }
}
