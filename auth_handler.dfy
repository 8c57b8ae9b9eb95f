/** The authentication back end (backend/auth/index.py): salted password
    hashing, registration, login by e-mail or by zero-padded user id, token
    verification, and the handler's dispatch. `secrets.token_hex(16)` (the
    salt) and `secrets.token_urlsafe(32)` (the session token) are
    parameters; `sha256` and `sha512` are hex-digest functions. */
module AuthHandler {
  import opened Wrappers
  import opened Text
  import opened Credentials
  import opened Store

  /** `timedelta(days=30)` in seconds. */
  const SessionSeconds := 30 * 24 * 60 * 60

  /** Column defaults of a freshly inserted user. The schema is not part of
      this model; a new account waits for activation as an ordinary user. */
  const NewUserRole := "user"
  const NewUserActive := false

  /** The JSON body fields the handler reads; a missing string field is ''. */
  datatype AuthBody = AuthBody(action: Option<string>, email: string, password: string, fullName: string)

  datatype AuthEvent = AuthEvent(httpMethod: string, headers: Headers, body: AuthBody)

  /** The rnd values one request may draw. */
  datatype Fresh = Fresh(salt: string, token: string)

  predicate NoDollar(s: string) {
    forall i :: 0 <= i < |s| ==> s[i] != '$'
  }

  /** Hex text, as `token_hex` and `hexdigest()` produce, holds no '$'. */
  lemma HexHasNoDollar(s: string)
    requires AllHex(s)
    ensures NoDollar(s)
  {
    forall i | 0 <= i < |s| ensures s[i] != '$' { assert IsHexDigit(s[i]); }
  }

  // ---------------------------------------------------------------------
  // hash_password / verify_password
  // ---------------------------------------------------------------------

  /** `hash_password(password)` with the salt drawn: 'salt$digest'. */
  function HashPassword(password: string, salt: string, sha512: string -> string): (r: string)
    ensures NoDollar(salt) && NoDollar(sha512(password + salt)) ==>
      Split(r, '$') == [salt, sha512(password + salt)]
  {
    var digest := sha512(password + salt);
    if NoDollar(salt) && NoDollar(digest) then
      SplitAtSeparator(salt, digest, '$');
      SplitNoSeparator(digest, '$');
      salt + "$" + digest
    else salt + "$" + digest
  }

  /** `verify_password(password, stored_hash)`: the stored text must split
      on '$' into exactly two parts (otherwise the unpacking raises and the
      answer is false), and the digest of password and salt must match. */
  function VerifyPassword(password: string, stored: string, sha512: string -> string): (r: bool)
    ensures r ==> Count(stored, '$') == 1
  {
    var parts := Split(stored, '$');
    SplitLength(stored, '$');
    |parts| == 2 && sha512(password + parts[0]) == parts[1]
  }

  /** A password verifies against its own hash. */
  /** `HashThenVerify` where its premise holds. */
  lemma HashThenVerifyWhen(password: string, salt: string, sha512: string -> string)
    ensures AllHex(salt) && AllHex(sha512(password + salt)) ==>
      VerifyPassword(password, HashPassword(password, salt, sha512), sha512)
  {
    if AllHex(salt) && AllHex(sha512(password + salt)) {
      HashThenVerify(password, salt, sha512);
    }
  }

  lemma HashThenVerify(password: string, salt: string, sha512: string -> string)
    requires AllHex(salt) && AllHex(sha512(password + salt))
    ensures VerifyPassword(password, HashPassword(password, salt, sha512), sha512)
  {
    HexHasNoDollar(salt);
    HexHasNoDollar(sha512(password + salt));
  }

  /** With a collision-free digest, only the hashed password verifies. */
  lemma OnlyThatPasswordVerifies(password: string, other: string, salt: string, sha512: string -> string)
    requires AllHex(salt) && AllHex(sha512(password + salt))
    requires forall a, b :: sha512(a) == sha512(b) ==> a == b
    requires VerifyPassword(other, HashPassword(password, salt, sha512), sha512)
    ensures other == password
  {
    HexHasNoDollar(salt);
    HexHasNoDollar(sha512(password + salt));
    assert other + salt == password + salt;
    assert other == (other + salt)[..|other|];
    assert |other| == |password|;
    assert password == (password + salt)[..|password|];
  }

  /** A stored hash with no '$', or with two of them, never verifies. */
  lemma MalformedHashRejected(password: string, stored: string, sha512: string -> string)
    requires Count(stored, '$') != 1
    ensures !VerifyPassword(password, stored, sha512)
  {
  }

  // ---------------------------------------------------------------------
  // Lookups
  // ---------------------------------------------------------------------

  function FindByEmail(users: seq<User>, email: string): (r: Option<User>)
    ensures r.Some? ==> r.value in users && r.value.email == email
    ensures r.None? <==> forall i :: 0 <= i < |users| ==> users[i].email != email
  {
    if users == [] then None
    else if users[0].email == email then Some(users[0])
    else FindByEmail(users[1..], email)
  }

  function FindByUserId(users: seq<User>, userId: string): (r: Option<User>)
    ensures r.Some? ==> r.value in users && r.value.userId == userId
    ensures r.None? <==> forall i :: 0 <= i < |users| ==> users[i].userId != userId
  {
    if users == [] then None
    else if users[0].userId == userId then Some(users[0])
    else FindByUserId(users[1..], userId)
  }

  // ---------------------------------------------------------------------
  // handle_register
  // ---------------------------------------------------------------------

  /** The public id of the user with internal id `id`: `str(id).zfill(5)`. */
  function PublicId(id: nat): (r: string)
    ensures IsDigits(r) && |r| >= 5
  {
    var s := NatToString(id);
    var r := ZFill(s, 5);
    assert IsDigits(r) by {
      if |s| < 5 {
        assert r == Zeros(5 - |s|) + s by { assert s[0] != '+' && s[0] != '-' by { assert IsDigit(s[0]); } }
        forall i | 0 <= i < |r| ensures IsDigit(r[i]) {
          if i >= 5 - |s| { assert r[i] == s[i - (5 - |s|)]; }
        }
      }
    }
    r
  }

  /** The row `handle_register` inserts. */
  function NewUser(t: Tables, body: AuthBody, rnd: Fresh, sha512: string -> string, now: int): (r: User)
    ensures IsDigits(r.userId) && |r.userId| >= 5
    ensures AllHex(rnd.salt) && AllHex(sha512(body.password + rnd.salt)) ==>
      VerifyPassword(body.password, r.passwordHash, sha512)
  {
    HashThenVerifyWhen(body.password, rnd.salt, sha512);
    User(t.nextUserId, PublicId(t.nextUserId), Lower(Strip(body.email)),
         HashPassword(body.password, rnd.salt, sha512), Strip(body.fullName), NewUserRole, NewUserActive, now, now)
  }

  /** `handle_register(body)`: the e-mail is trimmed and lower-cased, the
      name trimmed; all three fields are required, the password needs six
      characters, the e-mail must be new. Then the user and a 30-day
      session are inserted and 201 returns the token. */
  function Register(t: Tables, body: AuthBody, rnd: Fresh, sha256: string -> string,
                    sha512: string -> string, now: int): (r: Outcome)
    ensures r.response.status == 201 <==>
      && Strip(body.email) != "" && body.password != "" && Strip(body.fullName) != ""
      && |body.password| >= 6
      && FindByEmail(t.users, Lower(Strip(body.email))).None?
    ensures r.response.status != 201 ==> r.response.status == 400 && r.tables == t
    ensures r.response.status == 201 ==>
      r.tables == t.(users := t.users + [NewUser(t, body, rnd, sha512, now)],
                     sessions := t.sessions + [Session(t.nextUserId, sha256(rnd.token), now + SessionSeconds)],
                     nextUserId := t.nextUserId + 1)
  {
    match RegisterError(t, body)
    case Some(message) => Outcome(t, ErrorResponse(400, message, "*"))
    case None =>
      var id := t.nextUserId;
      var session := Session(id, sha256(rnd.token), now + SessionSeconds);
      Outcome(t.(users := t.users + [NewUser(t, body, rnd, sha512, now)], sessions := t.sessions + [session],
                 nextUserId := id + 1),
              Response(201, "*", Registered(rnd.token, id, PublicId(id), Lower(Strip(body.email)), Strip(body.fullName))))
  }

  /** The checks of `handle_register`, in their order: the message of the
      first that fails, or `None` when the registration may go ahead. */
  function RegisterError(t: Tables, body: AuthBody): (r: Option<string>)
    ensures r.None? <==>
      && Strip(body.email) != "" && body.password != "" && Strip(body.fullName) != ""
      && |body.password| >= 6
      && FindByEmail(t.users, Lower(Strip(body.email))).None?
  {
    var email := Lower(Strip(body.email));
    assert |email| == |Strip(body.email)|;
    if email == "" || body.password == "" || Strip(body.fullName) == "" then
      Some("Email, password and full_name are required")
    else if |body.password| < 6 then
      Some("Password must be at least 6 characters")
    else if FindByEmail(t.users, email).Some? then
      Some("User already exists")
    else None
  }

  /** The account a successful registration creates: its public id is the
      zero-padded internal id, the e-mail is stored normalised, the password
      only as its salted hash, and it starts as an inactive ordinary user. */
  lemma RegisteredUser(t: Tables, body: AuthBody, rnd: Fresh, sha256: string -> string,
                       sha512: string -> string, now: int)
    requires Register(t, body, rnd, sha256, sha512, now).response.status == 201
    ensures var u := Register(t, body, rnd, sha256, sha512, now).tables.users[|t.users|];
      && u == NewUser(t, body, rnd, sha512, now)
      && u.id == t.nextUserId && u.userId == PublicId(t.nextUserId)
      && u.email == Lower(Strip(body.email))
      && u.passwordHash == HashPassword(body.password, rnd.salt, sha512)
      && u.role == "user" && !u.isActive
  {
  }

  // ---------------------------------------------------------------------
  // handle_login
  // ---------------------------------------------------------------------

  /** Input of at most five ASCII digits is a user id. */
  predicate IsIdLogin(input: string) {
    IsDigits(input) && |input| <= 5
  }

  /** The user `handle_login` looks up: by `zfill(5)` user id for a short
      digit string, otherwise by the lower-cased e-mail. */
  function LoginLookup(users: seq<User>, input: string): (r: Option<User>)
    ensures IsIdLogin(input) && r.Some? ==> r.value.userId == ZFill(input, 5)
    ensures !IsIdLogin(input) && r.Some? ==> r.value.email == Lower(input)
    ensures r.Some? ==> r.value in users
    ensures IsIdLogin(input) ==> (r.None? <==> forall i :: 0 <= i < |users| ==> users[i].userId != ZFill(input, 5))
    ensures !IsIdLogin(input) ==> (r.None? <==> forall i :: 0 <= i < |users| ==> users[i].email != Lower(input))
  {
    if IsIdLogin(input) then FindByUserId(users, ZFill(input, 5))
    else FindByEmail(users, Lower(input))
  }

  /** `handle_login(body)`: both fields are required (400); an unknown user
      and a wrong password give the same 401; only then is an inactive
      account refused (403); otherwise a 30-day session is inserted. */
  function Login(t: Tables, body: AuthBody, rnd: Fresh, sha256: string -> string,
                 sha512: string -> string, now: int): (r: Outcome)
    ensures r.response.status != 200 ==> r.tables == t
    ensures r.response.status == 200 ==>
      && r.tables == t.(sessions := r.tables.sessions)
      && var u := LoginLookup(t.users, Strip(body.email));
         && u.Some? && u.value.isActive && VerifyPassword(body.password, u.value.passwordHash, sha512)
         && r.tables.sessions == t.sessions + [Session(u.value.id, sha256(rnd.token), now + SessionSeconds)]
         && r.response.body == LoggedIn(rnd.token, Account(u.value))
    ensures Strip(body.email) == "" || body.password == "" ==>
      r == Outcome(t, ErrorResponse(400, "Email/ID and password are required", "*"))
    ensures var u := LoginLookup(t.users, Strip(body.email));
      && Strip(body.email) != "" && body.password != ""
      && (u.None? || !VerifyPassword(body.password, u.value.passwordHash, sha512)) ==>
        r == Outcome(t, ErrorResponse(401, "Invalid email or password", "*"))
    ensures var u := LoginLookup(t.users, Strip(body.email));
      && Strip(body.email) != "" && body.password != ""
      && u.Some? && VerifyPassword(body.password, u.value.passwordHash, sha512) && !u.value.isActive ==>
        r == Outcome(t, ErrorResponse(403, "Account is not activated. Please wait for administrator approval.", "*"))
    ensures var u := LoginLookup(t.users, Strip(body.email));
      r.response.status == 200 <==>
        && Strip(body.email) != "" && body.password != ""
        && u.Some? && VerifyPassword(body.password, u.value.passwordHash, sha512) && u.value.isActive
  {
    var input := Strip(body.email);
    if input == "" || body.password == "" then
      Outcome(t, ErrorResponse(400, "Email/ID and password are required", "*"))
    else
      match LoginLookup(t.users, input)
      case None => Outcome(t, ErrorResponse(401, "Invalid email or password", "*"))
      case Some(u) =>
        if !VerifyPassword(body.password, u.passwordHash, sha512) then
          Outcome(t, ErrorResponse(401, "Invalid email or password", "*"))
        else if !u.isActive then
          Outcome(t, ErrorResponse(403, "Account is not activated. Please wait for administrator approval.", "*"))
        else
          Outcome(t.(sessions := t.sessions + [Session(u.id, sha256(rnd.token), now + SessionSeconds)]),
                  Response(200, "*", LoggedIn(rnd.token, Account(u))))
  }

  /** An unknown account and a wrong password are answered identically. */
  lemma LoginFailuresIndistinguishable(t: Tables, body: AuthBody, rnd: Fresh, sha256: string -> string,
                                       sha512: string -> string, now: int)
    requires Strip(body.email) != "" && body.password != ""
    requires var u := LoginLookup(t.users, Strip(body.email));
      u.None? || !VerifyPassword(body.password, u.value.passwordHash, sha512)
    ensures Login(t, body, rnd, sha256, sha512, now) == Outcome(t, ErrorResponse(401, "Invalid email or password", "*"))
  {
  }

  /** The activation state is revealed only to someone who knows the
      password: an inactive account with the right password gets 403. */
  lemma InactiveAfterPasswordCheck(t: Tables, body: AuthBody, rnd: Fresh, sha256: string -> string,
                                   sha512: string -> string, now: int)
    requires Strip(body.email) != "" && body.password != ""
    requires var u := LoginLookup(t.users, Strip(body.email));
      u.Some? && !u.value.isActive && VerifyPassword(body.password, u.value.passwordHash, sha512)
    ensures Login(t, body, rnd, sha256, sha512, now).response.status == 403
    ensures Login(t, body, rnd, sha256, sha512, now).tables == t
  {
  }

  /** Logging in with a short id pads it: '42' finds the user '00042'. */
  lemma LoginByShortId(t: Tables, body: AuthBody, rnd: Fresh, sha256: string -> string,
                       sha512: string -> string, now: int, u: User)
    requires body.email == "42" && body.password != ""
    requires u in t.users && u.userId == "00042" && u.isActive
    requires forall i :: 0 <= i < |t.users| && t.users[i].userId == "00042" ==> t.users[i] == u
    requires VerifyPassword(body.password, u.passwordHash, sha512)
    ensures Login(t, body, rnd, sha256, sha512, now).response == Response(200, "*", LoggedIn(rnd.token, Account(u)))
  {
    ShortIdPadded();
    FindsTheOnlyUser(t.users, u);
    assert LoginLookup(t.users, "42") == Some(u);
  }

  /** '42' is already stripped, is an id login, and pads to '00042'. */
  lemma ShortIdPadded()
    ensures Strip("42") == "42" && IsIdLogin("42") && ZFill("42", 5) == "00042"
  {
    StripOfStripped("42");
    assert IsDigit("42"[0]) && IsDigit("42"[1]);
    assert Zeros(3) == "000";
  }

  /** With one account holding a public id, the lookup by that id finds it. */
  lemma FindsTheOnlyUser(users: seq<User>, u: User)
    requires u in users
    requires forall i :: 0 <= i < |users| && users[i].userId == u.userId ==> users[i] == u
    ensures FindByUserId(users, u.userId) == Some(u)
  {
    var r := FindByUserId(users, u.userId);
    var k :| 0 <= k < |users| && users[k] == u;
    assert r.Some?;
    var j :| 0 <= j < |users| && users[j] == r.value;
  }

  /** A user whose internal id reached 100000 has a public id of six or
      more digits, which no id login (at most five digits, padded to five)
      can name. */
  lemma HighIdsCannotLogInById(id: nat, input: string)
    requires id >= 100000 && IsIdLogin(input)
    ensures ZFill(input, 5) != PublicId(id)
    ensures |PublicId(id)| >= 6
  {
    NatToStringLength(id);
  }

  /** After registering, logging in with the same e-mail and password finds
      the new account and, as it is not yet active, answers 403. */
  lemma RegisterThenLoginAwaitsActivation(t: Tables, body: AuthBody, rnd: Fresh, rnd2: Fresh,
                                          sha256: string -> string, sha512: string -> string, now: int)
    requires Register(t, body, rnd, sha256, sha512, now).response.status == 201
    requires !IsIdLogin(Strip(body.email))
    requires AllHex(rnd.salt) && AllHex(sha512(body.password + rnd.salt))
    ensures var t' := Register(t, body, rnd, sha256, sha512, now).tables;
      Login(t', body, rnd2, sha256, sha512, now).response.status == 403
  {
    var t' := Register(t, body, rnd, sha256, sha512, now).tables;
    RegisteredUser(t, body, rnd, sha256, sha512, now);
    var u := t'.users[|t.users|];
    var email := Lower(Strip(body.email));
    FindByEmailAppend(t.users, u, email);
    HashThenVerify(body.password, rnd.salt, sha512);
  }

  lemma {:induction false} FindByEmailAppend(users: seq<User>, u: User, email: string)
    requires FindByEmail(users, email).None? && u.email == email
    ensures FindByEmail(users + [u], email) == Some(u)
  {
    if users != [] {
      assert (users + [u])[1..] == users[1..] + [u];
      FindByEmailAppend(users[1..], u, email);
    }
  }

  // ---------------------------------------------------------------------
  // handle_verify and the handler
  // ---------------------------------------------------------------------

  /** `handle_verify(token)` */
  function Verify(t: Tables, token: string, sha256: string -> string, now: int): (r: Response)
    ensures token == "" ==> r == ErrorResponse(401, "Token required", "*")
    ensures r.status == 200 <==> VerifyToken(t, sha256, token, now).Some?
    ensures r.status == 200 ==> r.body == Verified(Account(VerifyToken(t, sha256, token, now).value))
  {
    if token == "" then ErrorResponse(401, "Token required", "*")
    else match SessionUser(t.users, t.sessions, sha256(token), now)
      case None => ErrorResponse(401, "Invalid or expired token", "*")
      case Some(u) => Response(200, "*", Verified(Account(u)))
  }

  /** `handler(event, context)`: OPTIONS first, then only POST (405), then
      the action (400 'Invalid action' for an unknown one). The verify
      action reads the first non-empty authorization header and deletes
      every 'Bearer ' and 'bearer ' in it. */
  function Handle(t: Tables, event: AuthEvent, rnd: Fresh, sha256: string -> string,
                  sha512: string -> string, now: int): (r: Outcome)
    ensures event.httpMethod == "OPTIONS" ==> r == Outcome(t, Response(200, "*", NoBody))
    ensures event.httpMethod !in {"OPTIONS", "POST"} ==> r == Outcome(t, ErrorResponse(405, "Method not allowed", "*"))
    ensures event.httpMethod == "POST" && event.body.action !in {Some("register"), Some("login"), Some("verify")} ==>
      r == Outcome(t, ErrorResponse(400, "Invalid action", "*"))
    ensures event.body.action == Some("verify") ==> r.tables == t
    ensures event.httpMethod == "POST" && event.body.action == Some("register") ==>
      r == Register(t, event.body, rnd, sha256, sha512, now)
    ensures event.httpMethod == "POST" && event.body.action == Some("login") ==>
      r == Login(t, event.body, rnd, sha256, sha512, now)
    ensures event.httpMethod == "POST" && event.body.action == Some("verify") ==>
      r == Outcome(t, Verify(t, StripBearer(FirstNonEmpty(event.headers, AuthorizationNames)), sha256, now))
  {
    if event.httpMethod == "OPTIONS" then Outcome(t, Response(200, "*", NoBody))
    else if event.httpMethod != "POST" then Outcome(t, ErrorResponse(405, "Method not allowed", "*"))
    else if event.body.action == Some("register") then Register(t, event.body, rnd, sha256, sha512, now)
    else if event.body.action == Some("login") then Login(t, event.body, rnd, sha256, sha512, now)
    else if event.body.action == Some("verify") then
      Outcome(t, Verify(t, StripBearer(FirstNonEmpty(event.headers, AuthorizationNames)), sha256, now))
    else Outcome(t, ErrorResponse(400, "Invalid action", "*"))
  }

  /** The token a login returns opens a session for that user. */
  lemma LoginThenVerify(t: Tables, body: AuthBody, rnd: Fresh, sha256: string -> string,
                        sha512: string -> string, now: int)
    requires Login(t, body, rnd, sha256, sha512, now).response.status == 200
    requires rnd.token != ""
    requires forall k :: 0 <= k < |t.sessions| ==> t.sessions[k].tokenHash != sha256(rnd.token)
    requires forall i, j :: 0 <= i < |t.users| && 0 <= j < |t.users| && t.users[i].id == t.users[j].id ==> t.users[i] == t.users[j]
    ensures var r := Login(t, body, rnd, sha256, sha512, now);
      Verify(r.tables, rnd.token, sha256, now).body == Verified(r.response.body.user)
  {
    var r := Login(t, body, rnd, sha256, sha512, now);
    var u := LoginLookup(t.users, Strip(body.email)).value;
    var s := Session(u.id, sha256(rnd.token), now + SessionSeconds);
    SessionUserSkips(t.users, t.sessions, s, sha256(rnd.token), now);
    var found := FindUser(t.users, u.id);
    assert found.Some? && found.value.id == u.id;
    assert found.value == u;
  }

  lemma {:induction false} SessionUserSkips(users: seq<User>, sessions: seq<Session>, s: Session, tokenHash: string, now: int)
    requires forall k :: 0 <= k < |sessions| ==> sessions[k].tokenHash != tokenHash
    ensures SessionUser(users, sessions + [s], tokenHash, now) == SessionUser(users, [s], tokenHash, now)
  {
    if sessions != [] {
      assert (sessions + [s])[1..] == sessions[1..] + [s];
      SessionUserSkips(users, sessions[1..], s, tokenHash, now);
    }
  }
}
