/** The crews back end (backend/crews/index.py): the crew permission
    predicate, crew creation with the one-crew-per-user checks, status and
    location updates, deletion, the newest-first listing, and the handler's
    order of checks. */
module CrewsHandler {
  import opened Wrappers
  import opened Text
  import opened Credentials
  import opened Store
  import opened Ordering
  import UsersSecurity
  import Html

  const CrewStatuses := ["available", "busy", "delay", "need_help"]
  const CrewManagerRoles := ["moderator", "admin", "manager"]

  /** The JSON body fields the handler reads; a missing string field is ''. */
  datatype CrewBody = CrewBody(callsign: string, location: string, secondMemberId: Option<int>,
                               crewId: Option<int>, action: Option<string>, status: Option<string>)

  /** The event: method (already defaulted to 'GET'), headers, body, and the
      `crew_id` query parameter, `None` when absent or empty. */
  datatype CrewEvent = CrewEvent(httpMethod: string, headers: Headers, body: CrewBody, queryCrewId: Option<int>)

  /** Python truthiness of an optional id: absent and 0 are false. */
  predicate Truthy(id: Option<int>) {
    id.Some? && id.value != 0
  }

  /** `sanitize_string(value.strip(), max_length)`. The crews function
      imports `sanitize_string` from its own `security` module, which is not
      part of this model; the users-manage one stands in for it. */
  function Clean(value: string, maxLength: nat): string {
    UsersSecurity.SanitizeString(UsersSecurity.Str(Strip(value)), maxLength)
  }

  // ---------------------------------------------------------------------
  // Memberships
  // ---------------------------------------------------------------------

  /** `SELECT id FROM crew_members WHERE user_id = %s` finds a row. */
  predicate InAnyCrew(members: seq<CrewMember>, userId: int) {
    exists k :: 0 <= k < |members| && members[k].userId == userId
  }

  /** The invariant the create checks aim at: no user has two membership
      rows, hence no user is in two crews. */
  predicate OneCrewPerUser(members: seq<CrewMember>) {
    forall i, j :: 0 <= i < j < |members| ==> members[i].userId != members[j].userId
  }

  /** `ARRAY_AGG(cm.user_id)` for one crew. */
  function MemberIds(members: seq<CrewMember>, crewId: int): (r: seq<int>)
    ensures forall x :: x in r <==> exists k :: 0 <= k < |members| && members[k].crewId == crewId && members[k].userId == x
  {
    if members == [] then []
    else
      var rest := MemberIds(members[1..], crewId);
      assert forall k :: 1 <= k < |members| ==> members[k] == members[1..][k - 1];
      if members[0].crewId == crewId then [members[0].userId] + rest else rest
  }

  /** `can_manage_crew(current_user, crew_creator_id, crew_members)` */
  function CanManageCrew(user: User, creatorId: int, memberIds: seq<int>): (r: bool)
    ensures r <==> user.role in CrewManagerRoles || creatorId == user.id || user.id in memberIds
  {
    if user.role in CrewManagerRoles then true
    else if creatorId == user.id then true
    else user.id in memberIds
  }

  /** Every member of a crew may manage it, whatever their role. */
  lemma MemberCanManage(t: Tables, user: User, c: Crew)
    requires exists k :: 0 <= k < |t.crewMembers| && t.crewMembers[k] == CrewMember(c.id, user.id)
    ensures CanManageCrew(user, c.creatorId, MemberIds(t.crewMembers, c.id))
  {
    var k :| 0 <= k < |t.crewMembers| && t.crewMembers[k] == CrewMember(c.id, user.id);
    assert t.crewMembers[k].crewId == c.id && t.crewMembers[k].userId == user.id;
  }

  function FindCrew(crews: seq<Crew>, id: int): (r: Option<Crew>)
    ensures r.Some? ==> r.value in crews && r.value.id == id
    ensures r.None? <==> forall i :: 0 <= i < |crews| ==> crews[i].id != id
  {
    if crews == [] then None
    else if crews[0].id == id then Some(crews[0])
    else FindCrew(crews[1..], id)
  }

  // ---------------------------------------------------------------------
  // Row updates
  // ---------------------------------------------------------------------

  /** `UPDATE crews SET status = %s, updated_at = NOW() WHERE id = %s` */
  function SetStatus(crews: seq<Crew>, id: int, status: string, now: int): (r: seq<Crew>)
    ensures |r| == |crews|
    ensures forall i :: 0 <= i < |r| ==>
      r[i] == if crews[i].id == id then crews[i].(status := status, updatedAt := now) else crews[i]
  {
    if crews == [] then []
    else [if crews[0].id == id then crews[0].(status := status, updatedAt := now) else crews[0]]
         + SetStatus(crews[1..], id, status, now)
  }

  /** `UPDATE crews SET location = %s, updated_at = NOW() WHERE id = %s` */
  function SetLocation(crews: seq<Crew>, id: int, location: string, now: int): (r: seq<Crew>)
    ensures |r| == |crews|
    ensures forall i :: 0 <= i < |r| ==>
      r[i] == if crews[i].id == id then crews[i].(location := location, updatedAt := now) else crews[i]
  {
    if crews == [] then []
    else [if crews[0].id == id then crews[0].(location := location, updatedAt := now) else crews[0]]
         + SetLocation(crews[1..], id, location, now)
  }

  /** `DELETE FROM crew_members WHERE crew_id = %s` */
  function DeleteMembersOf(members: seq<CrewMember>, crewId: int): (r: seq<CrewMember>)
    ensures forall k :: 0 <= k < |r| ==> r[k].crewId != crewId
    ensures forall m :: m in r <==> m in members && m.crewId != crewId
  {
    if members == [] then []
    else if members[0].crewId == crewId then DeleteMembersOf(members[1..], crewId)
    else [members[0]] + DeleteMembersOf(members[1..], crewId)
  }

  /** `DELETE FROM crews WHERE id = %s` */
  function DeleteCrewRows(crews: seq<Crew>, id: int): (r: seq<Crew>)
    ensures forall k :: 0 <= k < |r| ==> r[k].id != id
    ensures forall c :: c in r <==> c in crews && c.id != id
  {
    if crews == [] then []
    else if crews[0].id == id then DeleteCrewRows(crews[1..], id)
    else [crews[0]] + DeleteCrewRows(crews[1..], id)
  }

  // ---------------------------------------------------------------------
  // get_crews
  // ---------------------------------------------------------------------

  /** `ORDER BY c.created_at DESC` */
  function NewerOrSame(a: Crew, b: Crew): bool {
    a.createdAt >= b.createdAt
  }

  /** The members the `json_agg … FILTER (WHERE u.id IS NOT NULL)` keeps:
      membership rows of the crew whose user still exists. */
  function Roster(t: Tables, crewId: int): (r: seq<int>)
    ensures forall x :: x in r <==> x in MemberIds(t.crewMembers, crewId) && FindUser(t.users, x).Some?
  {
    var ids := MemberIds(t.crewMembers, crewId);
    KeepExisting(t.users, ids)
  }

  function KeepExisting(users: seq<User>, ids: seq<int>): (r: seq<int>)
    ensures forall x :: x in r <==> x in ids && FindUser(users, x).Some?
  {
    if ids == [] then []
    else if FindUser(users, ids[0]).Some? then [ids[0]] + KeepExisting(users, ids[1..])
    else KeepExisting(users, ids[1..])
  }

  function Views(t: Tables, crews: seq<Crew>): (r: seq<CrewView>)
    ensures |r| == |crews|
    ensures forall i :: 0 <= i < |r| ==> r[i].crew == crews[i] && r[i].memberIds == Roster(t, crews[i].id)
  {
    if crews == [] then [] else [CrewView(crews[0], Roster(t, crews[0].id))] + Views(t, crews[1..])
  }

  /** `get_crews`: every crew, newest first, each with its roster. */
  function GetCrews(t: Tables, origin: string): (r: Response)
    ensures r.allowOrigin == origin
    ensures r.status == 200 && r.body.CrewList?
    ensures |r.body.crews| == |t.crews|
  {
    Response(200, origin, CrewList(Views(t, SortBy(t.crews, NewerOrSame))))
  }

  /** The listing holds exactly the crews of the table, newest first. */
  lemma GetCrewsNewestFirst(t: Tables, origin: string)
    ensures var listed := GetCrews(t, origin).body.crews;
      && (forall i, j :: 0 <= i < j < |listed| ==> listed[i].crew.createdAt >= listed[j].crew.createdAt)
      && multiset(SortBy(t.crews, NewerOrSame)) == multiset(t.crews)
  {
    SortBySorted(t.crews, NewerOrSame);
    SortByPermutes(t.crews, NewerOrSame);
  }

  // ---------------------------------------------------------------------
  // create_crew
  // ---------------------------------------------------------------------

  /** `create_crew`: the sanitised callsign must be non-empty; a given second
      member, then the creator, must not already be in a crew; then one
      'available' crew is inserted with the creator, and the second member
      when given, as its members. */
  function CreateCrew(t: Tables, user: User, body: CrewBody, now: int, origin: string): (r: Outcome)
    ensures r.response.allowOrigin == origin
    ensures r.response.status == 200 <==>
      && Clean(body.callsign, 50) != ""
      && !(Truthy(body.secondMemberId) && InAnyCrew(t.crewMembers, body.secondMemberId.value))
      && !InAnyCrew(t.crewMembers, user.id)
    ensures r.response.status != 200 ==> r.response.status == 400 && r.tables == t
    ensures r.response.status == 200 ==>
      && r.tables == t.(crews := r.tables.crews, crewMembers := r.tables.crewMembers, nextCrewId := t.nextCrewId + 1)
      && r.tables.crews == t.crews + [Crew(t.nextCrewId, Clean(body.callsign, 50), Clean(body.location, 200), "available", user.id, now, now)]
      && r.response.body == CrewCreated(t.nextCrewId)
  {
    var callsign := Clean(body.callsign, 50);
    var location := Clean(body.location, 200);
    var second := body.secondMemberId;
    if callsign == "" then
      Outcome(t, ErrorResponse(400, "Callsign is required", origin))
    else if Truthy(second) && InAnyCrew(t.crewMembers, second.value) then
      Outcome(t, ErrorResponse(400, "Selected user is already in a crew", origin))
    else if InAnyCrew(t.crewMembers, user.id) then
      Outcome(t, ErrorResponse(400, "You are already in a crew", origin))
    else
      var id := t.nextCrewId;
      var crew := Crew(id, callsign, location, "available", user.id, now, now);
      var members := t.crewMembers + [CrewMember(id, user.id)]
                     + (if Truthy(second) then [CrewMember(id, second.value)] else []);
      var after := t.(crews := t.crews + [crew], crewMembers := members, nextCrewId := id + 1);
      assert after == t.(crews := after.crews, crewMembers := after.crewMembers, nextCrewId := t.nextCrewId + 1);
      Outcome(after, Response(200, origin, CrewCreated(id)))
  }

  /** The membership rows a successful creation adds. */
  lemma CreateCrewMembers(t: Tables, user: User, body: CrewBody, now: int, origin: string)
    requires CreateCrew(t, user, body, now, origin).response.status == 200
    ensures var members := CreateCrew(t, user, body, now, origin).tables.crewMembers;
      members == t.crewMembers + [CrewMember(t.nextCrewId, user.id)]
        + (if Truthy(body.secondMemberId) then [CrewMember(t.nextCrewId, body.secondMemberId.value)] else [])
  {
  }

  /** When both users are already in crews, the second member's conflict
      is the one reported. */
  lemma CreateCrewChecksSecondMemberFirst(t: Tables, user: User, body: CrewBody, now: int, origin: string)
    requires Clean(body.callsign, 50) != ""
    requires Truthy(body.secondMemberId) && InAnyCrew(t.crewMembers, body.secondMemberId.value)
    requires InAnyCrew(t.crewMembers, user.id)
    ensures CreateCrew(t, user, body, now, origin).response.body == Error("Selected user is already in a crew")
  {
  }

  /** Creating a crew keeps every user in at most one crew, as long as the
      second member is not the creator. */
  lemma CreateCrewKeepsOneCrewPerUser(t: Tables, user: User, body: CrewBody, now: int, origin: string)
    requires OneCrewPerUser(t.crewMembers)
    requires !(Truthy(body.secondMemberId) && body.secondMemberId.value == user.id)
    ensures OneCrewPerUser(CreateCrew(t, user, body, now, origin).tables.crewMembers)
  {
    if CreateCrew(t, user, body, now, origin).response.status == 200 {
      CreateCrewMembers(t, user, body, now, origin);
      NewRowsKeepOneCrewPerUser(t.crewMembers, t.nextCrewId, user.id, body.secondMemberId);
    }
  }

  /** Appending a row for a user in no crew, and possibly one for a second,
      different user in no crew, keeps every user in at most one crew. */
  lemma NewRowsKeepOneCrewPerUser(members: seq<CrewMember>, id: nat, first: int, second: Option<int>)
    requires OneCrewPerUser(members) && !InAnyCrew(members, first)
    requires Truthy(second) ==> !InAnyCrew(members, second.value) && second.value != first
    ensures OneCrewPerUser(members + [CrewMember(id, first)]
      + (if Truthy(second) then [CrewMember(id, second.value)] else []))
  {
    var m := members + [CrewMember(id, first)] + (if Truthy(second) then [CrewMember(id, second.value)] else []);
    var n := |members|;
    forall i, j | 0 <= i < j < |m| ensures m[i].userId != m[j].userId {
      if j < n {
        assert m[i] == members[i] && m[j] == members[j];
      } else if i < n {
        assert m[i] == members[i];
        assert m[j].userId == if j == n then first else second.value;
      } else {
        assert m[i].userId == first && m[j].userId == second.value;
      }
    }
  }

  /** Naming oneself as the second member passes both checks and inserts
      two membership rows for the creator. */
  lemma CreateCrewSelfAsSecondMember(t: Tables, user: User, body: CrewBody, now: int, origin: string)
    requires !InAnyCrew(t.crewMembers, user.id) && Clean(body.callsign, 50) != ""
    requires body.secondMemberId == Some(user.id) && user.id != 0
    ensures var r := CreateCrew(t, user, body, now, origin);
      && r.response.status == 200
      && !OneCrewPerUser(r.tables.crewMembers)
  {
    assert Truthy(body.secondMemberId) && !InAnyCrew(t.crewMembers, body.secondMemberId.value);
    CreateCrewMembers(t, user, body, now, origin);
    DuplicateRowBreaksOneCrew(t.crewMembers, t.nextCrewId, user.id);
  }

  /** Two rows for the same user at the end of the table break the
      one-crew-per-user invariant. */
  lemma DuplicateRowBreaksOneCrew(members: seq<CrewMember>, id: nat, userId: int)
    ensures !OneCrewPerUser(members + [CrewMember(id, userId)] + [CrewMember(id, userId)])
  {
    var m := members + [CrewMember(id, userId)] + [CrewMember(id, userId)];
    assert m[|members|].userId == m[|members| + 1].userId;
  }

  // ---------------------------------------------------------------------
  // update_crew and delete_crew
  // ---------------------------------------------------------------------

  /** What the checks `update_crew` and `delete_crew` share decide: go on
      with the crew, or answer with a status and an error message. */
  datatype Gate = Pass(crew: Crew) | Refuse(status: int, message: string)

  /** The id of the JSON body as the gate sees it: `None` unless truthy. */
  function BodyId(id: Option<int>): (r: Option<int>)
    ensures r.Some? <==> Truthy(id)
    ensures r.Some? ==> r == id
  {
    if Truthy(id) then id else None
  }

  /** The checks `update_crew` and `delete_crew` share, in their order:
      a crew id (400), an existing crew (404), permission (403). */
  function CrewGate(t: Tables, user: User, crewId: Option<int>): (r: Gate)
    ensures crewId.None? ==> r == Refuse(400, "crew_id is required")
    ensures crewId.Some? && FindCrew(t.crews, crewId.value).None? ==> r == Refuse(404, "Crew not found")
    ensures crewId.Some? && FindCrew(t.crews, crewId.value).Some?
            && !CanManageCrew(user, FindCrew(t.crews, crewId.value).value.creatorId, MemberIds(t.crewMembers, crewId.value)) ==>
      r == Refuse(403, "Access denied")
    ensures r.Pass? <==>
      && crewId.Some? && FindCrew(t.crews, crewId.value).Some?
      && CanManageCrew(user, FindCrew(t.crews, crewId.value).value.creatorId, MemberIds(t.crewMembers, crewId.value))
    ensures r.Pass? ==> r.crew.id == crewId.value && r.crew in t.crews
  {
    match crewId
    case None => Refuse(400, "crew_id is required")
    case Some(id) =>
      match FindCrew(t.crews, id)
      case None => Refuse(404, "Crew not found")
      case Some(c) =>
        if !CanManageCrew(user, c.creatorId, MemberIds(t.crewMembers, c.id)) then Refuse(403, "Access denied")
        else Pass(c)
  }

  /** `update_crew`: after the gate on the body's `crew_id`, 'update_status'
      sets one of the four statuses (400 otherwise) and 'update_location'
      the sanitised location on that crew; any other action is 400. */
  function UpdateCrew(t: Tables, user: User, body: CrewBody, now: int, origin: string): (r: Outcome)
    ensures r.response.allowOrigin == origin
    ensures r.response.status != 200 ==> r.tables == t
    ensures var g := CrewGate(t, user, BodyId(body.crewId));
      g.Refuse? ==> r == Outcome(t, ErrorResponse(g.status, g.message, origin))
    ensures CrewGate(t, user, BodyId(body.crewId)).Pass? && body.action == Some("update_status")
            && (body.status.None? || body.status.value !in CrewStatuses) ==>
      r == Outcome(t, ErrorResponse(400, "Invalid status", origin))
    ensures CrewGate(t, user, BodyId(body.crewId)).Pass? && body.action !in {Some("update_status"), Some("update_location")} ==>
      r == Outcome(t, ErrorResponse(400, "Invalid action", origin))
    ensures r.response.status == 200 <==>
      && CrewGate(t, user, BodyId(body.crewId)).Pass?
      && ((body.action == Some("update_status") && body.status.Some? && body.status.value in CrewStatuses)
          || body.action == Some("update_location"))
    ensures r.response.status == 200 && body.action == Some("update_status") ==>
      r.tables == t.(crews := SetStatus(t.crews, body.crewId.value, body.status.value, now))
    ensures r.response.status == 200 && body.action == Some("update_location") ==>
      r.tables == t.(crews := SetLocation(t.crews, body.crewId.value, Clean(body.location, 200), now))
  {
    match CrewGate(t, user, BodyId(body.crewId))
    case Refuse(status, msg) => Outcome(t, ErrorResponse(status, msg, origin))
    case Pass(c) =>
      if body.action == Some("update_status") then
        if body.status.None? || body.status.value !in CrewStatuses then
          Outcome(t, ErrorResponse(400, "Invalid status", origin))
        else
          Outcome(t.(crews := SetStatus(t.crews, c.id, body.status.value, now)),
                  Response(200, origin, Message("Status updated successfully")))
      else if body.action == Some("update_location") then
        Outcome(t.(crews := SetLocation(t.crews, c.id, Clean(body.location, 200), now)),
                Response(200, origin, Message("Location updated successfully")))
      else
        Outcome(t, ErrorResponse(400, "Invalid action", origin))
  }

  /** A status update changes that crew's status and nothing else. */
  lemma UpdateStatusOnlyThatCrew(t: Tables, user: User, body: CrewBody, now: int, origin: string)
    requires body.action == Some("update_status")
    requires UpdateCrew(t, user, body, now, origin).response.status == 200
    ensures var crews := UpdateCrew(t, user, body, now, origin).tables.crews;
      && |crews| == |t.crews|
      && (forall i :: 0 <= i < |crews| && t.crews[i].id != body.crewId.value ==> crews[i] == t.crews[i])
      && (forall i :: 0 <= i < |crews| && t.crews[i].id == body.crewId.value ==>
            crews[i].status == body.status.value && crews[i].callsign == t.crews[i].callsign)
  {
  }

  /** A location update stores the sanitised location on that crew and
      changes nothing else. */
  lemma UpdateLocationOnlyThatCrew(t: Tables, user: User, body: CrewBody, now: int, origin: string)
    requires body.action == Some("update_location")
    requires UpdateCrew(t, user, body, now, origin).response.status == 200
    ensures var crews := UpdateCrew(t, user, body, now, origin).tables.crews;
      && |crews| == |t.crews|
      && (forall i :: 0 <= i < |crews| && t.crews[i].id != body.crewId.value ==> crews[i] == t.crews[i])
      && (forall i :: 0 <= i < |crews| && t.crews[i].id == body.crewId.value ==>
            crews[i].location == Clean(body.location, 200) && crews[i].status == t.crews[i].status
            && crews[i].updatedAt == now)
  {
    var after := UpdateCrew(t, user, body, now, origin).tables;
    var location := Clean(body.location, 200);
    assert after.crews == SetLocation(t.crews, body.crewId.value, location, now);
    SetLocationOnlyThatCrew(t.crews, body.crewId.value, location, now);
  }

  /** Setting a location touches the crews with that id and no other. */
  lemma SetLocationOnlyThatCrew(crews: seq<Crew>, id: int, location: string, now: int)
    ensures var r := SetLocation(crews, id, location, now);
      && |r| == |crews|
      && (forall i :: 0 <= i < |r| && crews[i].id != id ==> r[i] == crews[i])
      && (forall i :: 0 <= i < |r| && crews[i].id == id ==>
            r[i].location == location && r[i].status == crews[i].status && r[i].updatedAt == now)
  {
  }

  /** A user who neither manages crews by role nor created or joined the
      crew is refused with 403 and changes nothing. */
  lemma OutsiderCannotUpdate(t: Tables, user: User, body: CrewBody, now: int, origin: string)
    requires Truthy(body.crewId) && FindCrew(t.crews, body.crewId.value).Some?
    requires user.role !in CrewManagerRoles
    requires FindCrew(t.crews, body.crewId.value).value.creatorId != user.id
    requires !InAnyCrew(t.crewMembers, user.id)
    ensures UpdateCrew(t, user, body, now, origin) == Outcome(t, ErrorResponse(403, "Access denied", origin))
  {
    var c := FindCrew(t.crews, body.crewId.value).value;
    assert user.id !in MemberIds(t.crewMembers, c.id);
  }

  /** `delete_crew`: after the gate on the query's `crew_id` (`None` when
      absent or empty; being text, "0" is looked up like any other id), the
      crew's memberships and then the crew itself are deleted. */
  function DeleteCrew(t: Tables, user: User, queryCrewId: Option<int>, origin: string): (r: Outcome)
    ensures r.response.allowOrigin == origin
    ensures r.response.status != 200 ==> r.tables == t
    ensures var g := CrewGate(t, user, queryCrewId);
      g.Refuse? ==> r == Outcome(t, ErrorResponse(g.status, g.message, origin))
    ensures r.response.status == 200 <==> CrewGate(t, user, queryCrewId).Pass?
    ensures r.response.status == 200 ==>
      && r.tables == t.(crews := r.tables.crews, crewMembers := r.tables.crewMembers)
      && (forall c :: c in r.tables.crews <==> c in t.crews && c.id != queryCrewId.value)
      && (forall m :: m in r.tables.crewMembers <==> m in t.crewMembers && m.crewId != queryCrewId.value)
  {
    match CrewGate(t, user, queryCrewId)
    case Refuse(status, msg) => Outcome(t, ErrorResponse(status, msg, origin))
    case Pass(c) =>
      Outcome(t.(crewMembers := DeleteMembersOf(t.crewMembers, c.id), crews := DeleteCrewRows(t.crews, c.id)),
              Response(200, origin, Message("Crew deleted successfully")))
  }

  /** A query `crew_id` of "0" is looked up like any other id: it is never
      refused as missing. */
  lemma ZeroQueryIdLookedUp(t: Tables, user: User, origin: string)
    ensures DeleteCrew(t, user, Some(0), origin).response.status in {200, 403, 404}
    ensures FindCrew(t.crews, 0).None? ==>
      DeleteCrew(t, user, Some(0), origin) == Outcome(t, ErrorResponse(404, "Crew not found", origin))
  {
  }

  lemma {:induction false} DeleteMembersOfKeepsOneCrewPerUser(members: seq<CrewMember>, crewId: int)
    requires OneCrewPerUser(members)
    ensures OneCrewPerUser(DeleteMembersOf(members, crewId))
  {
    if members != [] {
      var rest := members[1..];
      TailOneCrewPerUser(members);
      DeleteMembersOfKeepsOneCrewPerUser(rest, crewId);
      if members[0].crewId != crewId {
        var tail := DeleteMembersOf(rest, crewId);
        HeadNotInTail(members, crewId);
        ConsOneCrewPerUser(members[0], tail);
      }
    }
  }

  lemma TailOneCrewPerUser(members: seq<CrewMember>)
    requires members != [] && OneCrewPerUser(members)
    ensures OneCrewPerUser(members[1..])
  {
    var rest := members[1..];
    forall i, j | 0 <= i < j < |rest| ensures rest[i].userId != rest[j].userId {
      assert rest[i] == members[i + 1] && rest[j] == members[j + 1];
    }
  }

  lemma HeadNotInTail(members: seq<CrewMember>, crewId: int)
    requires members != [] && OneCrewPerUser(members)
    ensures forall m :: m in DeleteMembersOf(members[1..], crewId) ==> m.userId != members[0].userId
  {
    forall m | m in DeleteMembersOf(members[1..], crewId) ensures m.userId != members[0].userId {
      var k :| 0 <= k < |members[1..]| && members[1..][k] == m;
      assert members[k + 1] == m;
    }
  }

  lemma ConsOneCrewPerUser(m: CrewMember, tail: seq<CrewMember>)
    requires OneCrewPerUser(tail)
    requires forall x :: x in tail ==> x.userId != m.userId
    ensures OneCrewPerUser([m] + tail)
  {
    var r := [m] + tail;
    forall i, j | 0 <= i < j < |r| ensures r[i].userId != r[j].userId {
      assert r[j] == tail[j - 1];
      if i > 0 { assert r[i] == tail[i - 1]; }
    }
  }

  // ---------------------------------------------------------------------
  // handler
  // ---------------------------------------------------------------------

  /** `handler(event, context)`: OPTIONS answers 200 before any check; then
      a token is required (401), it must open a live session (401), and the
      method picks the operation (405 otherwise). */
  function Handle(t: Tables, sha256: string -> string, event: CrewEvent, now: int): (r: Outcome)
    ensures var origin := AllowOrigin(RequestOrigin(event.headers));
      r.response.allowOrigin == origin
    ensures event.httpMethod == "OPTIONS" ==> r == Outcome(t, Response(200, r.response.allowOrigin, NoBody))
    ensures event.httpMethod != "OPTIONS" && ExtractToken(event.headers) == "" ==>
      r.tables == t && r.response.status == 401 && r.response.body == Error("Authentication required")
    ensures
      (event.httpMethod != "OPTIONS" && ExtractToken(event.headers) != ""
       && VerifyToken(t, sha256, ExtractToken(event.headers), now).None?) ==>
      r.tables == t && r.response.status == 401 && r.response.body == Error("Invalid token")
    ensures event.httpMethod !in {"OPTIONS", "GET", "POST", "PUT", "DELETE"} ==>
      r.tables == t && r.response.status in {401, 405}
    ensures var token := ExtractToken(event.headers);
      event.httpMethod != "OPTIONS" && token != "" && VerifyToken(t, sha256, token, now).Some? ==>
        r == Route(t, VerifyToken(t, sha256, token, now).value, event, now, AllowOrigin(RequestOrigin(event.headers)))
    ensures r.response.status != 200 ==> r.tables == t
  {
    var origin := AllowOrigin(RequestOrigin(event.headers));
    if event.httpMethod == "OPTIONS" then Outcome(t, Response(200, origin, NoBody))
    else
      var token := ExtractToken(event.headers);
      if token == "" then Outcome(t, ErrorResponse(401, "Authentication required", origin))
      else match VerifyToken(t, sha256, token, now)
        case None => Outcome(t, ErrorResponse(401, "Invalid token", origin))
        case Some(user) => Route(t, user, event, now, origin)
  }

  /** The operation an authenticated request's method selects. */
  function Route(t: Tables, user: User, event: CrewEvent, now: int, origin: string): (r: Outcome)
    ensures r.response.allowOrigin == origin
    ensures event.httpMethod == "GET" ==> r == Outcome(t, GetCrews(t, origin))
    ensures event.httpMethod == "POST" ==> r == CreateCrew(t, user, event.body, now, origin)
    ensures event.httpMethod == "PUT" ==> r == UpdateCrew(t, user, event.body, now, origin)
    ensures event.httpMethod == "DELETE" ==> r == DeleteCrew(t, user, event.queryCrewId, origin)
    ensures event.httpMethod !in {"GET", "POST", "PUT", "DELETE"} ==>
      r == Outcome(t, ErrorResponse(405, "Method not allowed", origin))
    ensures r.response.status != 200 ==> r.tables == t
  {
    if event.httpMethod == "GET" then Outcome(t, GetCrews(t, origin))
    else if event.httpMethod == "POST" then CreateCrew(t, user, event.body, now, origin)
    else if event.httpMethod == "PUT" then UpdateCrew(t, user, event.body, now, origin)
    else if event.httpMethod == "DELETE" then DeleteCrew(t, user, event.queryCrewId, origin)
    else Outcome(t, ErrorResponse(405, "Method not allowed", origin))
  }

  /** Every request except a crew creation that names its own creator as
      second member keeps each user in at most one crew. */
  lemma HandleKeepsOneCrewPerUser(t: Tables, sha256: string -> string, event: CrewEvent, now: int)
    requires OneCrewPerUser(t.crewMembers)
    requires event.httpMethod == "POST" && Truthy(event.body.secondMemberId) ==>
      forall u :: VerifyToken(t, sha256, ExtractToken(event.headers), now) == Some(u) ==> u.id != event.body.secondMemberId.value
    ensures OneCrewPerUser(Handle(t, sha256, event, now).tables.crewMembers)
  {
    var origin := AllowOrigin(RequestOrigin(event.headers));
    var token := ExtractToken(event.headers);
    if event.httpMethod != "OPTIONS" && token != "" && VerifyToken(t, sha256, token, now).Some? {
      var user := VerifyToken(t, sha256, token, now).value;
      var r := Route(t, user, event, now, origin);
      assert Handle(t, sha256, event, now) == r;
      if event.httpMethod == "POST" {
        CreateCrewKeepsOneCrewPerUser(t, user, event.body, now, origin);
      } else if event.httpMethod == "DELETE" {
        match CrewGate(t, user, event.queryCrewId)
        case Refuse(_, _) =>
        case Pass(c) => DeleteMembersOfKeepsOneCrewPerUser(t.crewMembers, c.id);
      } else {
        assert r.tables.crewMembers == t.crewMembers;
      }
    }
  }
}
