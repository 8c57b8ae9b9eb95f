/** The tables the back-end handlers share (users, sessions, crews,
    crew_members, bolo, notifications), the responses they build, and the
    session lookup every authenticated handler starts with (`verify_token`).
    A query is modelled only by its effect on these tables; `NOW()` is the
    integer `now` (seconds) and `hashlib.sha256(...).hexdigest()` is the
    function parameter `sha256`. */
module Store {
  import opened Wrappers

  datatype User = User(id: nat, userId: string, email: string, passwordHash: string,
                       fullName: string, role: string, isActive: bool, createdAt: int, updatedAt: int)

  datatype Session = Session(userId: nat, tokenHash: string, expiresAt: int)

  datatype Crew = Crew(id: nat, callsign: string, location: string, status: string,
                       creatorId: nat, createdAt: int, updatedAt: int)

  datatype CrewMember = CrewMember(crewId: nat, userId: int)

  datatype Bolo = Bolo(id: nat, kind: string, mainInfo: string, additionalInfo: Option<string>,
                       isArmed: bool, createdBy: nat, createdAt: int, updatedAt: int)

  datatype Notification = Notification(id: nat, userId: nat, message: string, kind: string, isRead: bool,
                                       createdAt: int, relatedCrewId: Option<int>, relatedBoloId: Option<int>)

  /** The database: one sequence of rows per table, and the next value of
      each table's `SERIAL` id. */
  datatype Tables = Tables(users: seq<User>, sessions: seq<Session>, crews: seq<Crew>,
                           crewMembers: seq<CrewMember>, bolos: seq<Bolo>, notifications: seq<Notification>,
                           nextUserId: nat, nextCrewId: nat, nextBoloId: nat, nextNotificationId: nat)

  /** Every id handed out so far is below the table's next id. */
  predicate IdsBelowNext(t: Tables) {
    && (forall i :: 0 <= i < |t.users| ==> t.users[i].id < t.nextUserId)
    && (forall i :: 0 <= i < |t.crews| ==> t.crews[i].id < t.nextCrewId)
    && (forall i :: 0 <= i < |t.bolos| ==> t.bolos[i].id < t.nextBoloId)
    && (forall i :: 0 <= i < |t.notifications| ==> t.notifications[i].id < t.nextNotificationId)
  }

  /** A user as the user-management listing returns it: the columns it
      selects, which leave out `password_hash` and `updated_at`. */
  datatype UserView = UserView(id: nat, userId: string, email: string, fullName: string,
                               role: string, isActive: bool, createdAt: int)

  function View(u: User): (v: UserView)
    ensures v.id == u.id && v.userId == u.userId && v.email == u.email && v.role == u.role
    ensures v.fullName == u.fullName && v.isActive == u.isActive && v.createdAt == u.createdAt
  {
    UserView(u.id, u.userId, u.email, u.fullName, u.role, u.isActive, u.createdAt)
  }

  /** A user as login and token verification return it: the columns they
      select, without `password_hash` and without `created_at`. */
  datatype AccountView = AccountView(id: nat, userId: string, email: string, fullName: string,
                                     role: string, isActive: bool)

  function Account(u: User): (v: AccountView)
    ensures v.id == u.id && v.userId == u.userId && v.email == u.email && v.role == u.role
    ensures v.fullName == u.fullName && v.isActive == u.isActive
  {
    AccountView(u.id, u.userId, u.email, u.fullName, u.role, u.isActive)
  }

  /** A crew with the ids of its members (`json_agg` over the join). */
  datatype CrewView = CrewView(crew: Crew, memberIds: seq<int>)

  /** A BOLO with its author's name (`LEFT JOIN users`). */
  datatype BoloView = BoloView(bolo: Bolo, createdByName: Option<string>)

  /** The JSON bodies the handlers answer with. */
  datatype Body =
    | NoBody
    | Error(error: string)
    | Message(message: string)
    | CrewCreated(crewId: nat)
    | CrewList(crews: seq<CrewView>)
    | BoloList(bolos: seq<BoloView>)
    | BoloCreated(bolo: Bolo, additionalInfo: string)
    | Success
    | UserList(users: seq<UserView>, total: nat)
    | Registered(token: string, id: nat, userId: string, email: string, fullName: string)
    | LoggedIn(token: string, user: AccountView)
    | Verified(user: AccountView)
    | NotificationList(notifications: seq<Notification>)
    | NotificationCreated(id: nat, createdAt: int)

  /** `statusCode`, the `Access-Control-Allow-Origin` header, and `body`. */
  datatype Response = Response(status: int, allowOrigin: string, body: Body)

  function ErrorResponse(status: int, message: string, allowOrigin: string): (r: Response)
    ensures r.status == status && r.body.Error? && r.body.error == message
  {
    Response(status, allowOrigin, Error(message))
  }

  /** What a handler leaves behind: the tables after it and its response. */
  datatype Outcome = Outcome(tables: Tables, response: Response)

  // ---------------------------------------------------------------------
  // Row lookups
  // ---------------------------------------------------------------------

  /** `SELECT … FROM users WHERE id = %s`: the first row with that id. */
  function FindUser(users: seq<User>, id: int): (r: Option<User>)
    ensures r.Some? ==> r.value in users && r.value.id == id
    ensures r.None? <==> forall i :: 0 <= i < |users| ==> users[i].id != id
  {
    if users == [] then None
    else if users[0].id == id then Some(users[0])
    else FindUser(users[1..], id)
  }

  /** A session row the token opens at time `now`. */
  predicate Live(s: Session, tokenHash: string, now: int) {
    s.tokenHash == tokenHash && s.expiresAt > now
  }

  /** `users u JOIN sessions s ON u.id = s.user_id WHERE s.token_hash = %s
      AND s.expires_at > NOW()`, first row: the user of the first live
      session whose user still exists. */
  function SessionUser(users: seq<User>, sessions: seq<Session>, tokenHash: string, now: int): (r: Option<User>)
    ensures r.Some? ==> r.value in users
    ensures r.Some? ==>
      exists k :: 0 <= k < |sessions| && Live(sessions[k], tokenHash, now) && sessions[k].userId == r.value.id
    ensures r.None? ==>
      forall k, i :: 0 <= k < |sessions| && 0 <= i < |users| && Live(sessions[k], tokenHash, now) ==> users[i].id != sessions[k].userId
  {
    if sessions == [] then None
    else if Live(sessions[0], tokenHash, now) && FindUser(users, sessions[0].userId).Some? then
      FindUser(users, sessions[0].userId)
    else
      var r := SessionUser(users, sessions[1..], tokenHash, now);
      assert forall k :: 1 <= k < |sessions| ==> sessions[k] == sessions[1..][k - 1];
      if r.Some? then
        var k :| 0 <= k < |sessions[1..]| && Live(sessions[1..][k], tokenHash, now) && sessions[1..][k].userId == r.value.id;
        assert sessions[k + 1] == sessions[1..][k];
        r
      else r
  }

  /** `verify_token(token)`: no user for an empty token, otherwise the user
      of a live session whose hash is `sha256(token)`. */
  function VerifyToken(t: Tables, sha256: string -> string, token: string, now: int): (r: Option<User>)
    ensures token == "" ==> r.None?
    ensures r.Some? ==> r.value in t.users
    ensures r.Some? ==>
      exists k :: 0 <= k < |t.sessions| && Live(t.sessions[k], sha256(token), now) && t.sessions[k].userId == r.value.id
  {
    if token == "" then None else SessionUser(t.users, t.sessions, sha256(token), now)
  }

  /** A session that has expired opens nothing. */
  lemma {:induction false} ExpiredSessionRejected(users: seq<User>, s: Session, tokenHash: string, now: int)
    requires s.expiresAt <= now
    ensures SessionUser(users, [s], tokenHash, now).None?
  {
    assert !Live(s, tokenHash, now);
    assert [s][1..] == [];
  }

  /** A live session of an existing user opens it. */
  lemma {:induction false} LiveSessionAccepted(users: seq<User>, u: User, tokenHash: string, now: int, expiresAt: int)
    requires u in users && expiresAt > now
    requires forall i :: 0 <= i < |users| && users[i].id == u.id ==> users[i] == u
    ensures SessionUser(users, [Session(u.id, tokenHash, expiresAt)], tokenHash, now) == Some(u)
  {
    var r := FindUser(users, u.id);
    assert r.Some?;
  }
}
