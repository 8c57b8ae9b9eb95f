/** User administration (backend/users-manage/index.py): listing users by
    activation state, activating, deactivating and editing them, and
    deleting them with their sessions. Only an admin or a manager gets past
    the gate, and only an admin may delete. */
module UsersManageHandler {
  import opened Wrappers
  import opened Text
  import opened Credentials
  import opened Store
  import opened Ordering

  const ManagerRoles := {"admin", "manager"}
  const AssignableRoles := ["user", "moderator", "admin", "manager"]

  /** The JSON body of a POST; `userId` is `None` when absent or null. */
  datatype ManageBody = ManageBody(action: Option<string>, userId: Option<int>,
                                   fullName: Option<string>, role: Option<string>)

  /** `queryStatus` is the `status` query parameter; `queryUserId` the
      `user_id` one, `None` when absent or empty. */
  datatype ManageEvent = ManageEvent(httpMethod: string, headers: Headers, body: ManageBody,
                                     queryStatus: Option<string>, queryUserId: Option<nat>)

  /** Python truthiness of an optional integer field. */
  predicate Truthy(o: Option<int>) {
    o.Some? && o.value != 0
  }

  // ---------------------------------------------------------------------
  // get_users
  // ---------------------------------------------------------------------

  function Where(users: seq<User>, active: bool): (r: seq<User>)
    ensures forall i :: 0 <= i < |r| ==> r[i].isActive == active
    ensures multiset(r) <= multiset(users)
    ensures forall u :: u in users && u.isActive == active ==> u in r
  {
    if users == [] then []
    else
      assert users == [users[0]] + users[1..];
      if users[0].isActive == active then [users[0]] + Where(users[1..], active)
      else Where(users[1..], active)
  }

  /** Every user is either pending or active. */
  lemma {:induction false} WherePartitions(users: seq<User>)
    ensures |Where(users, false)| + |Where(users, true)| == |users|
  {
    if users != [] {
      WherePartitions(users[1..]);
    }
  }

  /** `ORDER BY created_at DESC` */
  predicate NewerOrSame(a: User, b: User) {
    a.createdAt >= b.createdAt
  }

  /** `ORDER BY user_id` */
  predicate ByPublicId(a: User, b: User) {
    LexLe(a.userId, b.userId)
  }

  lemma NewerOrSameTotal()
    ensures TotalPreorder(NewerOrSame)
  {
  }

  lemma ByPublicIdTotal()
    ensures TotalPreorder(ByPublicId)
  {
    forall a: User, b: User ensures ByPublicId(a, b) || ByPublicId(b, a) {
      LexLeTotal(a.userId, b.userId);
    }
    forall a: User, b: User, c: User | ByPublicId(a, b) && ByPublicId(b, c) ensures ByPublicId(a, c) {
      LexLeTransitive(a.userId, b.userId, c.userId);
    }
  }

  /** The rows `get_users` selects for a `status` parameter: inactive users
      newest first for 'pending', active users by public id for 'active',
      and every user newest first for anything else (default 'all'). */
  function Listed(users: seq<User>, status: string): (r: seq<User>)
    ensures status == "pending" ==>
      multiset(r) == multiset(Where(users, false)) && SortedBy(r, NewerOrSame)
    ensures status == "active" ==>
      multiset(r) == multiset(Where(users, true)) && SortedBy(r, ByPublicId)
    ensures status !in {"pending", "active"} ==>
      multiset(r) == multiset(users) && SortedBy(r, NewerOrSame)
  {
    NewerOrSameTotal();
    ByPublicIdTotal();
    if status == "pending" then
      var s := Where(users, false);
      SortByPermutes(s, NewerOrSame);
      SortBySorted(s, NewerOrSame);
      SortBy(s, NewerOrSame)
    else if status == "active" then
      var s := Where(users, true);
      SortByPermutes(s, ByPublicId);
      SortBySorted(s, ByPublicId);
      SortBy(s, ByPublicId)
    else
      SortByPermutes(users, NewerOrSame);
      SortBySorted(users, NewerOrSame);
      SortBy(users, NewerOrSame)
  }

  function Views(users: seq<User>): (r: seq<UserView>)
    ensures |r| == |users|
    ensures forall i :: 0 <= i < |users| ==> r[i] == View(users[i])
  {
    if users == [] then [] else [View(users[0])] + Views(users[1..])
  }

  /** `get_users(event, current_user)`: 200 with the listed users (without
      password hashes) and their number. */
  function GetUsers(t: Tables, status: Option<string>): (r: Response)
    ensures r.status == 200 && r.body.UserList?
    ensures r.body.total == |r.body.users|
    ensures r.body.users == Views(Listed(t.users, status.GetOr("all")))
  {
    var rows := Listed(t.users, status.GetOr("all"));
    Response(200, "*", UserList(Views(rows), |rows|))
  }

  /** The pending and the active list together are exactly the whole list. */
  lemma PendingAndActiveCoverAll(t: Tables)
    ensures GetUsers(t, Some("pending")).body.total + GetUsers(t, Some("active")).body.total
         == GetUsers(t, None).body.total
  {
    WherePartitions(t.users);
    var p := Listed(t.users, "pending");
    var a := Listed(t.users, "active");
    var all := Listed(t.users, "all");
    assert |p| == |Where(t.users, false)| by {
      assert |multiset(p)| == |multiset(Where(t.users, false))|;
    }
    assert |a| == |Where(t.users, true)| by {
      assert |multiset(a)| == |multiset(Where(t.users, true))|;
    }
    assert |all| == |t.users| by {
      assert |multiset(all)| == |multiset(t.users)|;
    }
  }

  // ---------------------------------------------------------------------
  // update_user
  // ---------------------------------------------------------------------

  /** The `SET` clauses the 'update' action collects. */
  datatype Assignment = SetFullName(fullName: string) | SetRole(role: string) | Touch

  /** `updates`: the full name whenever the field is present, the role only
      when it is one of the four assignable roles, and `updated_at = NOW()`
      after them when there is anything to update. */
  function UpdatesFor(body: ManageBody): (r: seq<Assignment>)
    ensures r != [] <==> body.fullName.Some? || (body.role.Some? && body.role.value in AssignableRoles)
    ensures r != [] ==> r[|r| - 1] == Touch
    ensures forall x :: x in r && x.SetRole? ==> x.role in AssignableRoles && body.role == Some(x.role)
    ensures forall x :: x in r && x.SetFullName? ==> body.fullName == Some(x.fullName)
  {
    var names := if body.fullName.Some? then [SetFullName(body.fullName.value)] else [];
    var roles := if body.role.Some? && body.role.value in AssignableRoles then [SetRole(body.role.value)] else [];
    if names + roles == [] then [] else names + roles + [Touch]
  }

  /** One user row after the `SET` clauses: the name and the role are those
      of the last clause that sets them (kept when none does), `updated_at`
      is now exactly when a `Touch` is among them, and the login data, the
      activation flag and the creation time are never touched. */
  function Assign(u: User, updates: seq<Assignment>, now: int): (r: User)
    ensures r.id == u.id && r.userId == u.userId && r.email == u.email
    ensures r.passwordHash == u.passwordHash && r.isActive == u.isActive && r.createdAt == u.createdAt
    ensures (forall k :: 0 <= k < |updates| ==> !updates[k].SetFullName?) ==> r.fullName == u.fullName
    ensures forall k :: 0 <= k < |updates| && updates[k].SetFullName? && LastName(updates, k) ==>
      r.fullName == updates[k].fullName
    ensures (forall k :: 0 <= k < |updates| ==> !updates[k].SetRole?) ==> r.role == u.role
    ensures forall k :: 0 <= k < |updates| && updates[k].SetRole? && LastRole(updates, k) ==>
      r.role == updates[k].role
    ensures (forall k :: 0 <= k < |updates| ==> !updates[k].Touch?) ==> r.updatedAt == u.updatedAt
    ensures (exists k :: 0 <= k < |updates| && updates[k].Touch?) ==> r.updatedAt == now
    decreases updates
  {
    if updates == [] then u
    else
      var v := match updates[0]
        case SetFullName(n) => u.(fullName := n)
        case SetRole(role) => u.(role := role)
        case Touch => u.(updatedAt := now);
      var r := Assign(v, updates[1..], now);
      AssignShift(updates);
      r
  }

  /** No clause after the `k`-th sets the name. */
  predicate LastName(updates: seq<Assignment>, k: int) {
    forall j :: 0 <= j < |updates| && k < j ==> !updates[j].SetFullName?
  }

  /** No clause after the `k`-th sets the role. */
  predicate LastRole(updates: seq<Assignment>, k: int) {
    forall j :: 0 <= j < |updates| && k < j ==> !updates[j].SetRole?
  }

  /** The clauses past the first, seen from the tail. */
  lemma AssignShift(updates: seq<Assignment>)
    requires updates != []
    ensures forall k :: 1 <= k < |updates| ==> updates[k] == updates[1..][k - 1]
    ensures forall k :: 1 <= k < |updates| ==> (LastName(updates, k) <==> LastName(updates[1..], k - 1))
    ensures forall k :: 1 <= k < |updates| ==> (LastRole(updates, k) <==> LastRole(updates[1..], k - 1))
    ensures LastName(updates, 0) <==> forall k :: 0 <= k < |updates[1..]| ==> !updates[1..][k].SetFullName?
    ensures LastRole(updates, 0) <==> forall k :: 0 <= k < |updates[1..]| ==> !updates[1..][k].SetRole?
  {
  }

  /** `UPDATE users SET … WHERE id = user_id`: every row with that id is
      replaced by `f` of itself, the others are kept. */
  function UpdateWhere(users: seq<User>, id: int, f: User -> User): (r: seq<User>)
    ensures |r| == |users|
    ensures forall i :: 0 <= i < |users| ==> r[i] == if users[i].id == id then f(users[i]) else users[i]
  {
    if users == [] then [] else [if users[0].id == id then f(users[0]) else users[0]] + UpdateWhere(users[1..], id, f)
  }

  /** `update_user(event, current_user)`: a truthy `user_id` is required;
      'activate' and 'deactivate' set `is_active` (whether or not the user
      exists); 'update' applies the collected clauses or answers 400 when
      there are none; any other action is 400. */
  function UpdateUser(t: Tables, body: ManageBody, now: int): (r: Outcome)
    ensures !Truthy(body.userId) ==> r == Outcome(t, ErrorResponse(400, "user_id is required", "*"))
    ensures r.response.status == 200 <==>
      Truthy(body.userId) && (body.action in {Some("activate"), Some("deactivate")}
                              || (body.action == Some("update") && UpdatesFor(body) != []))
    ensures r.response.status != 200 ==> r.tables == t && r.response.status == 400
    ensures r.tables == t.(users := r.tables.users)
    ensures |r.tables.users| == |t.users|
    ensures forall i :: 0 <= i < |t.users| && (!Truthy(body.userId) || t.users[i].id != body.userId.value) ==>
      r.tables.users[i] == t.users[i]
    ensures body.action !in {Some("activate"), Some("deactivate"), Some("update")} ==>
      r == Outcome(t, ErrorResponse(400, if Truthy(body.userId) then "Invalid action" else "user_id is required", "*"))
    ensures Truthy(body.userId) && body.action == Some("update") && UpdatesFor(body) == [] ==>
      r == Outcome(t, ErrorResponse(400, "No fields to update", "*"))
    ensures r.response.status == 200 ==> forall i :: 0 <= i < |t.users| && t.users[i].id == body.userId.value ==>
      r.tables.users[i] == (if body.action == Some("activate") then t.users[i].(isActive := true)
                            else if body.action == Some("deactivate") then t.users[i].(isActive := false)
                            else Assign(t.users[i], UpdatesFor(body), now))
  {
    if !Truthy(body.userId) then Outcome(t, ErrorResponse(400, "user_id is required", "*"))
    else
      var id := body.userId.value;
      if body.action == Some("activate") then
        Outcome(t.(users := UpdateWhere(t.users, id, (u: User) => u.(isActive := true))),
                Response(200, "*", Message("User activated successfully")))
      else if body.action == Some("deactivate") then
        Outcome(t.(users := UpdateWhere(t.users, id, (u: User) => u.(isActive := false))),
                Response(200, "*", Message("User deactivated successfully")))
      else if body.action == Some("update") then
        var updates := UpdatesFor(body);
        if updates == [] then Outcome(t, ErrorResponse(400, "No fields to update", "*"))
        else
          Outcome(t.(users := UpdateWhere(t.users, id, (u: User) => Assign(u, updates, now))),
                  Response(200, "*", Message("User updated successfully")))
      else Outcome(t, ErrorResponse(400, "Invalid action", "*"))
  }

  /** Activating the same user twice leaves the tables as once. */
  lemma ActivateIdempotent(t: Tables, body: ManageBody, now: int)
    requires body.action == Some("activate")
    ensures var t1 := UpdateUser(t, body, now).tables;
      UpdateUser(t1, body, now).tables == t1
  {
    var t1 := UpdateUser(t, body, now).tables;
    if Truthy(body.userId) {
      var t2 := UpdateUser(t1, body, now).tables;
      assert t2.users == t1.users;
    }
  }

  /** After 'activate' every row with that id is active and nothing else in
      it changed. */
  lemma ActivateSetsActive(t: Tables, body: ManageBody, now: int, i: int)
    requires body.action == Some("activate") && Truthy(body.userId)
    requires 0 <= i < |t.users| && t.users[i].id == body.userId.value
    ensures UpdateUser(t, body, now).tables.users[i] == t.users[i].(isActive := true)
  {
  }

  /** A role outside the four assignable ones is dropped silently; with no
      name beside it the request is refused and nothing changes. */
  lemma UnknownRoleIgnored(t: Tables, body: ManageBody, now: int)
    requires body.action == Some("update") && Truthy(body.userId)
    requires body.fullName.None? && body.role.Some? && body.role.value !in AssignableRoles
    ensures UpdateUser(t, body, now) == Outcome(t, ErrorResponse(400, "No fields to update", "*"))
  {
  }

  /** 'deactivate' clears the flag on every row with that id and nothing
      else in it. */
  lemma DeactivateSetsInactive(t: Tables, body: ManageBody, now: int, i: int)
    requires body.action == Some("deactivate") && Truthy(body.userId)
    requires 0 <= i < |t.users| && t.users[i].id == body.userId.value
    ensures UpdateUser(t, body, now).tables.users[i] == t.users[i].(isActive := false)
  {
  }

  /** Deactivating the same user twice leaves the tables as once. */
  lemma DeactivateIdempotent(t: Tables, body: ManageBody, now: int)
    requires body.action == Some("deactivate")
    ensures var t1 := UpdateUser(t, body, now).tables;
      UpdateUser(t1, body, now).tables == t1
  {
    var t1 := UpdateUser(t, body, now).tables;
    if Truthy(body.userId) {
      var t2 := UpdateUser(t1, body, now).tables;
      assert t2.users == t1.users;
    }
  }

  /** An 'update' with a name, a valid role or both sets the name when it
      is given, the role when it is one of the four, and stamps
      `updated_at`; a name beside an unknown role is still applied. */
  lemma {:induction false} UpdateAppliesFields(t: Tables, body: ManageBody, now: int, i: int)
    requires body.action == Some("update") && Truthy(body.userId)
    requires body.fullName.Some? || (body.role.Some? && body.role.value in AssignableRoles)
    requires 0 <= i < |t.users| && t.users[i].id == body.userId.value
    ensures var u := UpdateUser(t, body, now).tables.users[i];
      u == t.users[i].(fullName := body.fullName.GetOr(t.users[i].fullName),
                       role := if body.role.Some? && body.role.value in AssignableRoles then body.role.value
                               else t.users[i].role,
                       updatedAt := now)
  {
    var updates := UpdatesFor(body);
    var validRole := body.role.Some? && body.role.value in AssignableRoles;
    var names := if body.fullName.Some? then [SetFullName(body.fullName.value)] else [];
    var roles := if validRole then [SetRole(body.role.value)] else [];
    assert updates == names + roles + [Touch];
    assert updates[|updates| - 1].Touch?;
    if body.fullName.Some? {
      assert updates[0] == SetFullName(body.fullName.value) && LastName(updates, 0);
    } else {
      assert forall k :: 0 <= k < |updates| ==> !updates[k].SetFullName?;
    }
    if validRole {
      assert updates[|names|] == SetRole(body.role.value) && LastRole(updates, |names|);
    } else {
      assert forall k :: 0 <= k < |updates| ==> !updates[k].SetRole?;
    }
  }

  // ---------------------------------------------------------------------
  // delete_user
  // ---------------------------------------------------------------------

  function DeleteSessionsOf(sessions: seq<Session>, id: int): (r: seq<Session>)
    ensures forall s :: s in r <==> s in sessions && s.userId != id
  {
    if sessions == [] then []
    else if sessions[0].userId == id then DeleteSessionsOf(sessions[1..], id)
    else [sessions[0]] + DeleteSessionsOf(sessions[1..], id)
  }

  function DeleteUsersWithId(users: seq<User>, id: int): (r: seq<User>)
    ensures forall u :: u in r <==> u in users && u.id != id
  {
    if users == [] then []
    else if users[0].id == id then DeleteUsersWithId(users[1..], id)
    else [users[0]] + DeleteUsersWithId(users[1..], id)
  }

  /** `delete_user(event, current_user)`: admins only (403, checked before
      the parameter), a `user_id` is required (400); then the user's
      sessions and the user go. */
  function DeleteUser(t: Tables, current: User, queryUserId: Option<nat>): (r: Outcome)
    ensures current.role != "admin" ==> r == Outcome(t, ErrorResponse(403, "Only admin can delete users", "*"))
    ensures current.role == "admin" && queryUserId.None? ==>
      r == Outcome(t, ErrorResponse(400, "user_id is required", "*"))
    ensures r.response.status == 200 <==> current.role == "admin" && queryUserId.Some?
    ensures r.response.status == 200 ==>
      && r.tables == t.(users := r.tables.users, sessions := r.tables.sessions)
      && (forall u :: u in r.tables.users <==> u in t.users && u.id != queryUserId.value)
      && (forall s :: s in r.tables.sessions <==> s in t.sessions && s.userId != queryUserId.value)
  {
    if current.role != "admin" then Outcome(t, ErrorResponse(403, "Only admin can delete users", "*"))
    else match queryUserId
      case None => Outcome(t, ErrorResponse(400, "user_id is required", "*"))
      case Some(id) =>
        Outcome(t.(sessions := DeleteSessionsOf(t.sessions, id), users := DeleteUsersWithId(t.users, id)),
                Response(200, "*", Message("User deleted successfully")))
  }

  /** After a deletion no session opens the deleted account any more. */
  lemma {:induction false} DeletedUserLoggedOut(t: Tables, current: User, id: nat, sha256: string -> string,
                                                token: string, now: int)
    requires current.role == "admin"
    ensures var u := VerifyToken(DeleteUser(t, current, Some(id)).tables, sha256, token, now);
      u.None? || u.value.id != id
  {
  }

  // ---------------------------------------------------------------------
  // handler
  // ---------------------------------------------------------------------

  /** `handler(event, context)`: OPTIONS first; then the first non-empty
      authorization header with every 'Bearer '/'bearer ' removed must be a
      token (401) of a live session (401) of an admin or manager (403);
      GET lists, POST updates, DELETE deletes, anything else is 405. */
  function Handle(t: Tables, sha256: string -> string, event: ManageEvent, now: int): (r: Outcome)
    ensures event.httpMethod == "OPTIONS" ==> r == Outcome(t, Response(200, "*", NoBody))
    ensures var token := StripBearer(FirstNonEmpty(event.headers, AuthorizationNames));
      && (event.httpMethod != "OPTIONS" && token == "" ==>
            r == Outcome(t, ErrorResponse(401, "Authentication required", "*")))
      && (event.httpMethod != "OPTIONS" && token != "" && VerifyToken(t, sha256, token, now).None? ==>
            r == Outcome(t, ErrorResponse(401, "Invalid token", "*")))
      && (event.httpMethod != "OPTIONS" && VerifyToken(t, sha256, token, now).Some?
          && VerifyToken(t, sha256, token, now).value.role !in ManagerRoles ==>
            r == Outcome(t, ErrorResponse(403, "Access denied. Admin or Manager role required.", "*")))
    ensures r.tables != t ==>
      var u := VerifyToken(t, sha256, StripBearer(FirstNonEmpty(event.headers, AuthorizationNames)), now);
      u.Some? && u.value.role in ManagerRoles && event.httpMethod in {"POST", "DELETE"}
    ensures var u := VerifyToken(t, sha256, StripBearer(FirstNonEmpty(event.headers, AuthorizationNames)), now);
      u.Some? && u.value.role in ManagerRoles ==>
        && (event.httpMethod == "GET" ==> r == Outcome(t, GetUsers(t, event.queryStatus)))
        && (event.httpMethod == "POST" ==> r == UpdateUser(t, event.body, now))
        && (event.httpMethod == "DELETE" ==> r == DeleteUser(t, u.value, event.queryUserId))
        && (event.httpMethod !in {"OPTIONS", "GET", "POST", "DELETE"} ==>
              r == Outcome(t, ErrorResponse(405, "Method not allowed", "*")))
  {
    if event.httpMethod == "OPTIONS" then Outcome(t, Response(200, "*", NoBody))
    else
      var token := StripBearer(FirstNonEmpty(event.headers, AuthorizationNames));
      if token == "" then Outcome(t, ErrorResponse(401, "Authentication required", "*"))
      else match VerifyToken(t, sha256, token, now)
        case None => Outcome(t, ErrorResponse(401, "Invalid token", "*"))
        case Some(current) =>
          if current.role !in ManagerRoles then
            Outcome(t, ErrorResponse(403, "Access denied. Admin or Manager role required.", "*"))
          else if event.httpMethod == "GET" then Outcome(t, GetUsers(t, event.queryStatus))
          else if event.httpMethod == "POST" then UpdateUser(t, event.body, now)
          else if event.httpMethod == "DELETE" then DeleteUser(t, current, event.queryUserId)
          else Outcome(t, ErrorResponse(405, "Method not allowed", "*"))
  }

  /** A manager may not delete anyone. */
  lemma ManagerCannotDelete(t: Tables, sha256: string -> string, event: ManageEvent, now: int)
    requires event.httpMethod == "DELETE"
    requires VerifyToken(t, sha256, StripBearer(FirstNonEmpty(event.headers, AuthorizationNames)), now)
             .Some?
    requires VerifyToken(t, sha256, StripBearer(FirstNonEmpty(event.headers, AuthorizationNames)), now)
             .value.role == "manager"
    ensures Handle(t, sha256, event, now) == Outcome(t, ErrorResponse(403, "Only admin can delete users", "*"))
  {
  }

  /** Nothing caps the role a manager assigns: a manager may make any user,
      the manager included, an admin. */
  lemma ManagerMayAssignAdmin(t: Tables, sha256: string -> string, event: ManageEvent, now: int, i: int)
    requires event.httpMethod == "POST"
    requires var u := VerifyToken(t, sha256, StripBearer(FirstNonEmpty(event.headers, AuthorizationNames)), now);
      u.Some? && u.value.role == "manager"
    requires 0 <= i < |t.users|
    requires event.body == ManageBody(Some("update"), Some(t.users[i].id), None, Some("admin")) && t.users[i].id != 0
    ensures Handle(t, sha256, event, now).tables.users[i].role == "admin"
  {
    assert Handle(t, sha256, event, now) == UpdateUser(t, event.body, now);
    UpdateAppliesFields(t, event.body, now, i);
  }

  /** The session lookup does not look at `is_active`: a deactivated admin
      whose session is still live keeps managing users. */
  lemma DeactivatedAdminStillAdmits(t: Tables, sha256: string -> string, event: ManageEvent, now: int)
    requires event.httpMethod == "GET"
    requires var u := VerifyToken(t, sha256, StripBearer(FirstNonEmpty(event.headers, AuthorizationNames)), now);
      u.Some? && u.value.role == "admin" && !u.value.isActive
    ensures Handle(t, sha256, event, now).response.status == 200
  {
  }
}
