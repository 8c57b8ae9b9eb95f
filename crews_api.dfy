/** The crews client (src/lib/crews-api.ts): the request each call sends,
    how replies become results or thrown errors, and `getAvailableUsers`,
    which keeps the active users who belong to no crew. */
module CrewsApi {
  import opened Wrappers
  import opened Text
  import opened ClientHttp

  const CrewsApiUrl := "https://functions.poehali.dev/f4f45aca-ba9d-4afa-b89b-d082668a4ee4"
  const ActiveUsersUrl := "https://functions.poehali.dev/348afac0-d112-4953-b5da-6eafc2cf5bec?status=active"

  datatype Member = Member(userId: int, publicId: string, fullName: string, email: string)

  datatype Crew = Crew(id: nat, callsign: string, location: string, status: string, creatorId: int,
                       members: seq<Member>)

  /** A user as the active-users list returns it. */
  datatype Candidate = Candidate(id: int, publicId: string, fullName: string, email: string)

  // ---------------------------------------------------------------------
  // getAvailableUsers
  // ---------------------------------------------------------------------

  /** The member ids of a list of crews. */
  function MemberIds(crews: seq<Crew>): (r: set<int>)
    ensures forall id :: id in r <==> exists c, m :: c in crews && m in c.members && m.userId == id
  {
    if crews == [] then {}
    else
      var rest := MemberIds(crews[1..]);
      assert forall c :: c in crews <==> c == crews[0] || c in crews[1..];
      IdsOfMembers(crews[0].members) + rest
  }

  function IdsOfMembers(members: seq<Member>): (r: set<int>)
    ensures forall id :: id in r <==> exists m :: m in members && m.userId == id
  {
    set m | m in members :: m.userId
  }

  /** The candidates whose id is not in `taken`, in their original order. */
  function Outside(users: seq<Candidate>, taken: set<int>): (r: seq<Candidate>)
    ensures forall u :: u in r <==> u in users && u.id !in taken
    ensures |r| <= |users|
  {
    if users == [] then []
    else if users[0].id in taken then Outside(users[1..], taken)
    else [users[0]] + Outside(users[1..], taken)
  }

  /** Filtering keeps order: the free users of a concatenation are the free
      users of each part, one after the other. */
  lemma {:induction false} OutsideAppend(a: seq<Candidate>, b: seq<Candidate>, taken: set<int>)
    ensures Outside(a + b, taken) == Outside(a, taken) + Outside(b, taken)
  {
    if a == [] {
      assert a + b == b;
    } else {
      assert (a + b)[1..] == a[1..] + b;
      assert (a + b)[0] == a[0];
      OutsideAppend(a[1..], b, taken);
      if a[0].id !in taken {
        assert Outside(a + b, taken) == [a[0]] + Outside(a[1..] + b, taken);
      }
    }
  }

  /** `getAvailableUsers()` after both fetches succeed: every member id of
      every crew goes into a set, then the active users outside the set are
      kept. */
  method AvailableUsers(users: seq<Candidate>, crews: seq<Crew>) returns (r: seq<Candidate>)
    ensures r == Outside(users, MemberIds(crews))
  {
    var usersInCrews: set<int> := {};
    var i := 0;
    while i < |crews|
      invariant 0 <= i <= |crews|
      invariant usersInCrews == MemberIds(crews[..i])
    {
      MemberIdsPrefix(crews, i);
      usersInCrews := AddMemberIds(usersInCrews, crews[i].members);
      i := i + 1;
    }
    assert crews[..i] == crews;
    r := Outside(users, usersInCrews);
  }

  /** `crew.members.forEach(member => usersInCrews.add(member.user_id))` */
  method AddMemberIds(ids: set<int>, members: seq<Member>) returns (r: set<int>)
    ensures r == ids + IdsOfMembers(members)
  {
    r := ids;
    var j := 0;
    while j < |members|
      invariant 0 <= j <= |members|
      invariant r == ids + IdsOfMembers(members[..j])
    {
      assert members[..j + 1] == members[..j] + [members[j]];
      r := r + {members[j].userId};
      j := j + 1;
    }
    assert members[..j] == members;
  }

  /** One more crew of the list adds its members' ids. */
  lemma MemberIdsPrefix(crews: seq<Crew>, i: nat)
    requires i < |crews|
    ensures MemberIds(crews[..i + 1]) == MemberIds(crews[..i]) + IdsOfMembers(crews[i].members)
  {
    assert crews[..i + 1] == crews[..i] + [crews[i]];
    MemberIdsSnoc(crews[..i], crews[i]);
  }

  lemma MemberIdsSnoc(crews: seq<Crew>, c: Crew)
    ensures MemberIds(crews + [c]) == MemberIds(crews) + IdsOfMembers(c.members)
  {
    forall id ensures id in MemberIds(crews + [c]) <==> id in MemberIds(crews) + IdsOfMembers(c.members) {
      if id in MemberIds(crews + [c]) {
        var c', m :| c' in crews + [c] && m in c'.members && m.userId == id;
      }
    }
  }

  /** No user offered as available is a member of any crew, and every active
      user outside all crews is offered. */
  /** `getAvailableUsers()` with its two fetches: a failed users fetch
      throws 'Failed to fetch users' before the crews are asked for, a
      failed crews fetch throws 'Failed to fetch crews', and otherwise the
      active users outside every crew are returned. */
  method GetAvailableUsers(usersOk: bool, users: seq<Candidate>, crewsOk: bool, crews: seq<Crew>)
    returns (r: Result<seq<Candidate>>)
    ensures !usersOk ==> r == Err("Failed to fetch users")
    ensures usersOk && !crewsOk ==> r == Err("Failed to fetch crews")
    ensures usersOk && crewsOk ==> r == Ok(Outside(users, MemberIds(crews)))
  {
    if !usersOk {
      return Err("Failed to fetch users");
    }
    if !crewsOk {
      return Err("Failed to fetch crews");
    }
    var available := AvailableUsers(users, crews);
    return Ok(available);
  }

  lemma AvailableMeansCrewless(users: seq<Candidate>, crews: seq<Crew>, u: Candidate)
    ensures u in Outside(users, MemberIds(crews)) <==>
      u in users && forall c, m :: c in crews && m in c.members ==> m.userId != u.id
  {
  }

  // ---------------------------------------------------------------------
  // Replies
  // ---------------------------------------------------------------------

  /** `getCrews()`: a reply that is `ok` gives `result.crews`, or [] when
      the field is missing; any other reply throws the server's error,
      'Network error' when the body is not JSON, or 'Failed to fetch crews'. */
  function GetCrewsResult(ok: bool, crews: Option<seq<Crew>>, body: Option<Entries<JsonValue>>): (r: Result<seq<Crew>>)
    ensures ok ==> r.Ok? && (crews.Some? ==> r.value == crews.value) && (crews.None? ==> r.value == [])
    ensures !ok ==> r == Err(ServerFailureCaught(body, "Failed to fetch crews"))
    ensures !ok && body.None? ==> r == Err("Network error")
  {
    if !ok then Err(ServerFailureCaught(body, "Failed to fetch crews"))
    else Ok(crews.GetOr([]))
  }

  /** The calls whose failure message is fixed per call. */
  datatype Call =
    | GetCrews
    | CreateCrew(callsign: string, location: Option<string>, secondMemberId: Option<int>)
    | UpdateStatus(crewId: nat, status: string)
    | UpdateLocation(crewId: nat, newLocation: string)
    | DeleteCrew(crewId: nat)

  /** The request each call sends; JSON.stringify drops undefined fields. */
  function RequestOf(c: Call): (r: Request)
    ensures c.GetCrews? ==> r == Request("GET", CrewsApiUrl, None)
    ensures c.CreateCrew? ==>
      && r.httpMethod == "POST" && r.url == CrewsApiUrl && r.body.Some?
      && Lookup(r.body.value, "callsign") == Some(JStr(c.callsign))
      && Lookup(r.body.value, "location") == (if c.location.Some? then Some(JStr(c.location.value)) else None)
      && Lookup(r.body.value, "second_member_id")
           == (if c.secondMemberId.Some? then Some(JNum(c.secondMemberId.value)) else None)
    ensures c.UpdateStatus? ==>
      && r.httpMethod == "PUT" && r.url == CrewsApiUrl && r.body.Some?
      && Lookup(r.body.value, "crew_id") == Some(JNum(c.crewId))
      && Lookup(r.body.value, "action") == Some(JStr("update_status"))
      && Lookup(r.body.value, "status") == Some(JStr(c.status))
    ensures c.UpdateLocation? ==>
      && r.httpMethod == "PUT" && r.url == CrewsApiUrl && r.body.Some?
      && Lookup(r.body.value, "crew_id") == Some(JNum(c.crewId))
      && Lookup(r.body.value, "action") == Some(JStr("update_location"))
      && Lookup(r.body.value, "location") == Some(JStr(c.newLocation))
    ensures c.DeleteCrew? ==> r == Request("DELETE", CrewsApiUrl + "?crew_id=" + NatToString(c.crewId), None)
  {
    match c
    case GetCrews => Request("GET", CrewsApiUrl, None)
    case CreateCrew(callsign, location, second) => Request("POST", CrewsApiUrl, Some(CreateBody(callsign, location, second)))
    case UpdateStatus(id, status) => Request("PUT", CrewsApiUrl, Some(UpdateBody(id, "update_status", "status", status)))
    case UpdateLocation(id, location) => Request("PUT", CrewsApiUrl, Some(UpdateBody(id, "update_location", "location", location)))
    case DeleteCrew(id) => Request("DELETE", CrewsApiUrl + "?crew_id=" + NatToString(id), None)
  }

  /** The body of `createCrew`: the callsign, then each optional field only
      when it is defined. */
  function CreateBody(callsign: string, location: Option<string>, second: Option<int>): (r: Entries<JsonValue>)
    ensures Lookup(r, "callsign") == Some(JStr(callsign))
    ensures Lookup(r, "location") == if location.Some? then Some(JStr(location.value)) else None
    ensures Lookup(r, "second_member_id") == if second.Some? then Some(JNum(second.value)) else None
  {
    assert "callsign"[0] == 'c' && "location"[0] == 'l' && "second_member_id"[0] == 's';
    var b1 := SetEntry([], "callsign", JStr(callsign));
    var b2 := if location.Some? then SetEntry(b1, "location", JStr(location.value)) else b1;
    var b3 := if second.Some? then SetEntry(b2, "second_member_id", JNum(second.value)) else b2;
    assert Lookup(b1, "location").None? && Lookup(b1, "second_member_id").None?;
    assert Lookup(b2, "callsign") == Lookup(b1, "callsign");
    assert Lookup(b2, "second_member_id").None?;
    assert Lookup(b3, "location") == Lookup(b2, "location");
    assert Lookup(b3, "callsign") == Lookup(b2, "callsign");
    b3
  }

  /** The body of a crew update: the crew id, the action, and its one
      field. */
  function UpdateBody(id: nat, action: string, key: string, value: string): (r: Entries<JsonValue>)
    requires key == "status" || key == "location"
    ensures Lookup(r, "crew_id") == Some(JNum(id))
    ensures Lookup(r, "action") == Some(JStr(action))
    ensures Lookup(r, key) == Some(JStr(value))
  {
    assert "crew_id"[0] == 'c' && "action"[0] == 'a' && key[0] in {'s', 'l'};
    var b1 := SetEntry([], "crew_id", JNum(id));
    var b2 := SetEntry(b1, "action", JStr(action));
    assert Lookup(b2, "crew_id") == Lookup(b1, "crew_id");
    SetEntry(b2, key, JStr(value))
  }

  /** The message each call falls back on when the server gives none. */
  function Fallback(c: Call): (r: string)
    ensures r != ""
  {
    match c
    case GetCrews => "Failed to fetch crews"
    case CreateCrew(_, _, _) => "Failed to create crew"
    case UpdateStatus(_, _) => "Failed to update status"
    case UpdateLocation(_, _) => "Failed to update location"
    case DeleteCrew(_) => "Failed to delete crew"
  }

  /** What a call throws on a reply that is not `ok`. `getCrews` and
      `createCrew` catch a body that is not JSON as 'Network error'; the
      others let the parse error through. */
  function FailureOf(c: Call, body: Option<Entries<JsonValue>>): (r: Failure)
    ensures body.Some? && ErrorField(body.value) != "" ==> r == Thrown(ErrorField(body.value))
    ensures body.None? && (c.GetCrews? || c.CreateCrew?) ==> r == Thrown("Network error")
    ensures body.None? && !(c.GetCrews? || c.CreateCrew?) ==> r == SyntaxError
    ensures body.Some? && ErrorField(body.value) == "" ==> r == Thrown(Fallback(c))
  {
    if c.GetCrews? || c.CreateCrew? then Thrown(ServerFailureCaught(body, Fallback(c)))
    else ServerFailure(body, Fallback(c))
  }
}
