/** The browser session (src/lib/auth.ts): two `localStorage` entries, the
    session token under 'auth_token' and the signed-in user, serialised,
    under 'user'. The storage is a map field that each operation sets or
    clears; the server's reply to a request is an input. */
module ClientAuth {
  import opened Wrappers
  import opened ClientHttp

  const AuthApiUrl := "https://functions.poehali.dev/7f5283a8-d73f-4630-82d9-49a08c177e47"
  const TokenKey := "auth_token"
  const UserKey := "user"

  /** The fields `register` may send; the optional ones are `None` when
      undefined. */
  datatype Registration = Registration(email: string, password: string, fullName: string,
                                       rank: Option<string>, badgeNumber: Option<string>,
                                       department: Option<string>)

  /** What `fetch` gave back for a register or login request: a reply that
      is not `ok` with its body (`None` when it is not JSON), or an `ok`
      reply with the token and the serialised user. */
  datatype AuthReply = Failed(body: Option<Entries<JsonValue>>) | Succeeded(token: string, user: string)

  /** What `register` and `login` resolve with, or the error they throw. */
  datatype AuthResult = SignedIn(token: string, user: string) | Raised(failure: Failure)

  /** What `fetch` gave back for the verify request: an `ok` reply with the
      user, a reply that is not `ok`, or an exception (network, or a body
      that does not parse). */
  datatype VerifyReply = Accepted(user: string) | Rejected | Threw

  function OptStr(o: Option<string>): Option<JsonValue> {
    if o.Some? then Some(JStr(o.value)) else None
  }

  /** The body of `register`: `{ action: 'register', ...data }`, where
      `JSON.stringify` drops the optional fields left undefined. */
  function RegisterRequest(data: Registration): (r: Request)
    ensures r.httpMethod == "POST" && r.url == AuthApiUrl && r.body.Some?
    ensures Lookup(r.body.value, "action") == Some(JStr("register"))
    ensures Lookup(r.body.value, "email") == Some(JStr(data.email))
    ensures Lookup(r.body.value, "password") == Some(JStr(data.password))
    ensures Lookup(r.body.value, "full_name") == Some(JStr(data.fullName))
    ensures Lookup(r.body.value, "rank") == OptStr(data.rank)
    ensures Lookup(r.body.value, "badge_number") == OptStr(data.badgeNumber)
    ensures Lookup(r.body.value, "department") == OptStr(data.department)
  {
    var b := RequiredFields(data);
    var r := OptionalFields(b, data);
    assert Lookup(r, "action") == Some(JStr("register")) && Lookup(r, "email") == Some(JStr(data.email));
    Request("POST", AuthApiUrl, Some(r))
  }

  /** The optional fields of the spread, each present only when defined. */
  function OptionalFields(b: Entries<JsonValue>, data: Registration): (r: Entries<JsonValue>)
    ensures Lookup(r, "rank") == (if data.rank.Some? then OptStr(data.rank) else Lookup(b, "rank"))
    ensures Lookup(r, "badge_number") == (if data.badgeNumber.Some? then OptStr(data.badgeNumber) else Lookup(b, "badge_number"))
    ensures Lookup(r, "department") == (if data.department.Some? then OptStr(data.department) else Lookup(b, "department"))
    ensures forall k :: k != "rank" && k != "badge_number" && k != "department" ==> Lookup(r, k) == Lookup(b, k)
  {
    assert "rank"[0] == 'r' && "badge_number"[0] == 'b' && "department"[0] == 'd';
    var b1 := Spread(b, "rank", data.rank);
    var b2 := Spread(b1, "badge_number", data.badgeNumber);
    var r := Spread(b2, "department", data.department);
    assert Lookup(r, "rank") == Lookup(b2, "rank") == Lookup(b1, "rank");
    assert Lookup(r, "badge_number") == Lookup(b2, "badge_number");
    assert Lookup(b2, "department") == Lookup(b1, "department") == Lookup(b, "department");
    r
  }

  /** The action and the three fields `register` always sends. */
  function RequiredFields(data: Registration): (r: Entries<JsonValue>)
    ensures Lookup(r, "action") == Some(JStr("register"))
    ensures Lookup(r, "email") == Some(JStr(data.email))
    ensures Lookup(r, "password") == Some(JStr(data.password))
    ensures Lookup(r, "full_name") == Some(JStr(data.fullName))
    ensures Lookup(r, "rank").None? && Lookup(r, "badge_number").None? && Lookup(r, "department").None?
  {
    assert "action"[0] == 'a' && "email"[0] == 'e' && "password"[0] == 'p' && "full_name"[0] == 'f';
    assert "rank"[0] == 'r' && "badge_number"[0] == 'b' && "department"[0] == 'd';
    var r := [("action", JStr("register")), ("email", JStr(data.email)),
              ("password", JStr(data.password)), ("full_name", JStr(data.fullName))];
    FourEntries(r, "action");
    FourEntries(r, "email");
    FourEntries(r, "password");
    FourEntries(r, "full_name");
    FourEntries(r, "rank");
    FourEntries(r, "badge_number");
    FourEntries(r, "department");
    r
  }

  /** A lookup in four entries, written out. */
  function LookupFour<V>(r: Entries<V>, k: string): Option<V>
    requires |r| == 4
  {
    if r[0].0 == k then Some(r[0].1)
    else if r[1].0 == k then Some(r[1].1)
    else if r[2].0 == k then Some(r[2].1)
    else if r[3].0 == k then Some(r[3].1)
    else None
  }

  lemma FourEntries<V>(r: Entries<V>, k: string)
    requires |r| == 4
    ensures Lookup(r, k) == LookupFour(r, k)
  {
    assert r[1..][1..] == r[2..] && r[2..][1..] == r[3..] && r[3..][1..] == [];
    assert Lookup(r[3..], k) == if r[3].0 == k then Some(r[3].1) else None;
    assert Lookup(r[2..], k) == if r[2].0 == k then Some(r[2].1) else Lookup(r[3..], k);
    assert Lookup(r[1..], k) == if r[1].0 == k then Some(r[1].1) else Lookup(r[2..], k);
  }

  /** One optional field of the spread: present only when defined. */
  function Spread(b: Entries<JsonValue>, key: string, value: Option<string>): (r: Entries<JsonValue>)
    ensures Lookup(r, key) == if value.Some? then OptStr(value) else Lookup(b, key)
    ensures forall k :: k != key ==> Lookup(r, k) == Lookup(b, k)
  {
    if value.Some? then SetEntry(b, key, JStr(value.value)) else b
  }

  /** The body of `login`: the action, the email (or public id) and the
      password. */
  function LoginRequest(email: string, password: string): (r: Request)
    ensures r.httpMethod == "POST" && r.url == AuthApiUrl && r.body.Some?
    ensures Lookup(r.body.value, "action") == Some(JStr("login"))
    ensures Lookup(r.body.value, "email") == Some(JStr(email))
    ensures Lookup(r.body.value, "password") == Some(JStr(password))
  {
    Request("POST", AuthApiUrl,
      Some(SetEntry(SetEntry(SetEntry([], "action", JStr("login")), "email", JStr(email)), "password", JStr(password))))
  }

  /** The storage after a successful register or login. */
  function SignedInStorage(storage: map<string, string>, token: string, user: string): (r: map<string, string>)
    ensures TokenKey in r && UserKey in r && r[TokenKey] == token && r[UserKey] == user
    ensures r.Keys == storage.Keys + {TokenKey, UserKey}
    ensures forall k :: k in storage && k != TokenKey && k != UserKey ==> r[k] == storage[k]
  {
    storage[TokenKey := token][UserKey := user]
  }

  /** The storage after `logout`: both session entries gone, the rest kept. */
  function Cleared(storage: map<string, string>): (r: map<string, string>)
    ensures TokenKey !in r && UserKey !in r
    ensures forall k :: k != TokenKey && k != UserKey ==> (k in r <==> k in storage)
    ensures forall k :: k in r ==> r[k] == storage[k]
  {
    storage - {TokenKey, UserKey}
  }

  /** Logging out twice is logging out once. */
  lemma ClearedIdempotent(storage: map<string, string>)
    ensures Cleared(Cleared(storage)) == Cleared(storage)
  {
  }

  /** `!!localStorage.getItem('auth_token')`: a token is stored and is not
      the empty string. */
  predicate HasToken(storage: map<string, string>) {
    TokenKey in storage && storage[TokenKey] != ""
  }

  /** A sign-in with a non-empty token authenticates; a sign-out never
      leaves the session authenticated, whatever came before. */
  lemma SignInThenOut(storage: map<string, string>, token: string, user: string)
    ensures HasToken(SignedInStorage(storage, token, user)) <==> token != ""
    ensures !HasToken(Cleared(SignedInStorage(storage, token, user)))
    ensures Cleared(SignedInStorage(storage, token, user)) == Cleared(storage)
  {
  }

  class SessionStore {
    var storage: map<string, string>

    constructor(initial: map<string, string>)
      ensures storage == initial
    {
      storage := initial;
    }

    /** `register(data)` once the reply is in: an `ok` reply stores the
        token and the user and resolves; any other reply throws the server's
        error or 'Registration failed' and leaves the storage alone. */
    method Register(data: Registration, reply: AuthReply) returns (sent: Request, r: AuthResult)
      modifies this
      ensures sent == RegisterRequest(data)
      ensures reply.Succeeded? ==>
        r == SignedIn(reply.token, reply.user) && storage == SignedInStorage(old(storage), reply.token, reply.user)
      ensures reply.Failed? ==>
        r == Raised(ServerFailure(reply.body, "Registration failed")) && storage == old(storage)
    {
      sent := RegisterRequest(data);
      r := SignIn(reply, "Registration failed");
    }

    /** `login(email, password)`, the same with 'Login failed'. */
    method Login(email: string, password: string, reply: AuthReply) returns (sent: Request, r: AuthResult)
      modifies this
      ensures sent == LoginRequest(email, password)
      ensures reply.Succeeded? ==>
        r == SignedIn(reply.token, reply.user) && storage == SignedInStorage(old(storage), reply.token, reply.user)
      ensures reply.Failed? ==>
        r == Raised(ServerFailure(reply.body, "Login failed")) && storage == old(storage)
    {
      sent := LoginRequest(email, password);
      r := SignIn(reply, "Login failed");
    }

    /** The common tail of `register` and `login`. */
    method SignIn(reply: AuthReply, fallback: string) returns (r: AuthResult)
      modifies this
      ensures reply.Succeeded? ==>
        r == SignedIn(reply.token, reply.user) && storage == SignedInStorage(old(storage), reply.token, reply.user)
      ensures reply.Failed? ==> r == Raised(ServerFailure(reply.body, fallback)) && storage == old(storage)
    {
      match reply
      case Failed(body) =>
        r := Raised(ServerFailure(body, fallback));
      case Succeeded(token, user) =>
        storage := storage[TokenKey := token];
        storage := storage[UserKey := user];
        r := SignedIn(token, user);
    }

    /** `verify()`. Without a non-empty stored token it resolves to null and
        sends nothing. Otherwise it sends the token as a bearer credential:
        an `ok` reply gives the server's user and leaves the stored user as
        it was; a rejected or failed request logs out and gives null, never
        the cached user. `authorization` is the header sent, if any. */
    method Verify(reply: VerifyReply) returns (authorization: Option<string>, user: Option<string>)
      modifies this
      ensures !HasToken(old(storage)) ==> authorization.None? && user.None? && storage == old(storage)
      ensures HasToken(old(storage)) ==> authorization == Some("Bearer " + old(storage)[TokenKey])
      ensures HasToken(old(storage)) && reply.Accepted? ==> user == Some(reply.user) && storage == old(storage)
      ensures HasToken(old(storage)) && !reply.Accepted? ==> user.None? && storage == Cleared(old(storage))
    {
      if TokenKey !in storage || storage[TokenKey] == "" {
        return None, None;
      }
      authorization := Some("Bearer " + storage[TokenKey]);
      match reply
      case Accepted(u) =>
        user := Some(u);
      case Rejected =>
        Logout();
        user := None;
      case Threw =>
        Logout();
        user := None;
    }

    /** `logout()`: both session entries removed, everything else kept. */
    method Logout()
      modifies this
      ensures storage == Cleared(old(storage))
      ensures !IsAuthenticated()
    {
      storage := storage - {TokenKey};
      storage := storage - {UserKey};
    }

    /** `getStoredUser()`: null when the entry is missing or empty, and also
        when it does not parse; `parse` stands for `JSON.parse`, `None` for
        the exception it throws. */
    function GetStoredUser<U>(parse: string -> Option<U>): (r: Option<U>)
      reads this
      ensures UserKey !in storage ==> r.None?
      ensures r.Some? ==> UserKey in storage && storage[UserKey] != "" && r == parse(storage[UserKey])
      ensures UserKey in storage && storage[UserKey] != "" ==> r == parse(storage[UserKey])
    {
      if UserKey !in storage || storage[UserKey] == "" then None else parse(storage[UserKey])
    }

    /** `isAuthenticated()`: a non-empty token is stored. */
    function IsAuthenticated(): (r: bool)
      reads this
      ensures r <==> HasToken(storage)
    {
      TokenKey in storage && storage[TokenKey] != ""
    }
  }
}
