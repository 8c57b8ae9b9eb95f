/** The BOLO ("be on the lookout") back end (backend/bolo/index.py): the
    checks before any query, creation with its validation, the partial
    update (`COALESCE`/`NULLIF`), deletion, and the newest-first listing. */
module BoloHandler {
  import opened Wrappers
  import opened Text
  import opened Credentials
  import opened Store
  import opened Ordering
  import UsersSecurity
  import BoloSecurity

  const BoloKinds := ["person", "vehicle"]

  /** The JSON body fields the handler reads; a missing string field is ''. */
  datatype BoloBody = BoloBody(kind: Option<string>, mainInfo: string, additionalInfo: string,
                               isArmed: Option<bool>, id: Option<int>)

  /** The event: method (already defaulted to 'GET'), headers, body and the
      `id` query parameter, `None` when absent or empty. The parameter is
      text, so any non-empty value, "0" included, is looked up. */
  datatype BoloEvent = BoloEvent(httpMethod: string, headers: Headers, body: BoloBody, queryId: Option<int>)

  /** Python truthiness of an optional id: absent and 0 are false. */
  predicate Truthy(id: Option<int>) {
    id.Some? && id.value != 0
  }

  /** `sanitize_string(value.strip(), max_length)` */
  function Clean(value: string, maxLength: nat): string {
    BoloSecurity.SanitizeString(UsersSecurity.Str(Strip(value)), maxLength)
  }

  /** `additional_info or None` */
  function OrNull(s: string): (r: Option<string>)
    ensures r.None? <==> s == ""
    ensures r.Some? ==> r.value == s
  {
    if s == "" then None else Some(s)
  }

  // ---------------------------------------------------------------------
  // GET
  // ---------------------------------------------------------------------

  /** `ORDER BY b.created_at DESC` */
  function NewerOrSame(a: Bolo, b: Bolo): bool {
    a.createdAt >= b.createdAt
  }

  /** The author's name from `LEFT JOIN users u ON b.created_by = u.id`. */
  function AuthorName(users: seq<User>, createdBy: int): (r: Option<string>)
    ensures r.Some? <==> FindUser(users, createdBy).Some?
  {
    match FindUser(users, createdBy)
    case None => None
    case Some(u) => Some(u.fullName)
  }

  /** The rows of the listing, one per BOLO in the given order. */
  function BoloViews(users: seq<User>, rows: seq<Bolo>): (r: seq<BoloView>)
    ensures |r| == |rows|
    ensures forall i :: 0 <= i < |r| ==> r[i].bolo == rows[i]
  {
    if rows == [] then [] else [BoloView(rows[0], AuthorName(users, rows[0].createdBy))] + BoloViews(users, rows[1..])
  }

  /** The `for row in cursor.fetchall(): bolos.append({...})` loop. */
  method CollectBolos(users: seq<User>, rows: seq<Bolo>) returns (bolos: seq<BoloView>)
    ensures bolos == BoloViews(users, rows)
  {
    bolos := [];
    var i := 0;
    while i < |rows|
      invariant 0 <= i <= |rows|
      invariant bolos == BoloViews(users, rows[..i])
    {
      BoloViewsAppend(users, rows[..i], rows[i]);
      assert rows[..i + 1] == rows[..i] + [rows[i]];
      bolos := bolos + [BoloView(rows[i], AuthorName(users, rows[i].createdBy))];
      i := i + 1;
    }
    assert rows[..i] == rows;
  }

  lemma {:induction false} BoloViewsAppend(users: seq<User>, rows: seq<Bolo>, b: Bolo)
    ensures BoloViews(users, rows + [b]) == BoloViews(users, rows) + [BoloView(b, AuthorName(users, b.createdBy))]
  {
    if rows != [] {
      assert (rows + [b])[1..] == rows[1..] + [b];
      BoloViewsAppend(users, rows[1..], b);
    }
  }

  /** GET: every BOLO, newest first. */
  function ListBolos(t: Tables): (r: seq<BoloView>)
    ensures |r| == |t.bolos|
  {
    BoloViews(t.users, SortBy(t.bolos, NewerOrSame))
  }

  /** The listing is exactly the table, newest first. */
  lemma ListBolosNewestFirst(t: Tables)
    ensures forall i, j :: 0 <= i < j < |ListBolos(t)| ==> ListBolos(t)[i].bolo.createdAt >= ListBolos(t)[j].bolo.createdAt
    ensures multiset(SortBy(t.bolos, NewerOrSame)) == multiset(t.bolos)
  {
    SortBySorted(t.bolos, NewerOrSame);
    SortByPermutes(t.bolos, NewerOrSame);
  }

  // ---------------------------------------------------------------------
  // POST
  // ---------------------------------------------------------------------

  /** POST: the type must be 'person' or 'vehicle' (checked first), the
      sanitised main text must be non-empty; the new row belongs to the
      caller and is unarmed unless the body says otherwise. */
  function CreateBolo(t: Tables, creatorId: nat, body: BoloBody, now: int, origin: string): (r: Outcome)
    ensures body.kind.None? || body.kind.value !in BoloKinds ==>
      r == Outcome(t, ErrorResponse(400, "Invalid type", origin))
    ensures body.kind.Some? && body.kind.value in BoloKinds && Clean(body.mainInfo, 500) == "" ==>
      r == Outcome(t, ErrorResponse(400, "Main info is required", origin))
    ensures r.response.status == 201 <==> body.kind.Some? && body.kind.value in BoloKinds && Clean(body.mainInfo, 500) != ""
    ensures r.response.status == 201 ==>
      && r.response.body.BoloCreated?
      && r.tables == t.(bolos := t.bolos + [r.response.body.bolo], nextBoloId := t.nextBoloId + 1)
  {
    var mainInfo := Clean(body.mainInfo, 500);
    var additionalInfo := Clean(body.additionalInfo, 1000);
    if body.kind.None? || body.kind.value !in BoloKinds then
      Outcome(t, ErrorResponse(400, "Invalid type", origin))
    else if mainInfo == "" then
      Outcome(t, ErrorResponse(400, "Main info is required", origin))
    else
      var b := Bolo(t.nextBoloId, body.kind.value, mainInfo, OrNull(additionalInfo),
                    body.isArmed.GetOr(false), creatorId, now, now);
      Outcome(t.(bolos := t.bolos + [b], nextBoloId := t.nextBoloId + 1),
              Response(201, origin, BoloCreated(b, additionalInfo)))
  }

  /** The row a successful POST inserts: a fresh id, the caller as author,
      the sanitised texts with an empty additional text stored as NULL, and
      `is_armed` false unless given. */
  lemma CreatedRow(t: Tables, creatorId: nat, body: BoloBody, now: int, origin: string)
    requires CreateBolo(t, creatorId, body, now, origin).response.status == 201
    ensures var b := CreateBolo(t, creatorId, body, now, origin).response.body.bolo;
      && b.id == t.nextBoloId && b.createdBy == creatorId && b.kind == body.kind.value
      && b.mainInfo == Clean(body.mainInfo, 500) && b.mainInfo != ""
      && b.isArmed == body.isArmed.GetOr(false)
      && (b.additionalInfo.None? <==> Clean(body.additionalInfo, 1000) == "")
  {
  }

  /** A successful POST hands out an id no earlier row has. */
  lemma CreatedIdFresh(t: Tables, creatorId: nat, body: BoloBody, now: int, origin: string)
    requires IdsBelowNext(t)
    requires CreateBolo(t, creatorId, body, now, origin).response.status == 201
    ensures var r := CreateBolo(t, creatorId, body, now, origin);
      && IdsBelowNext(r.tables)
      && forall i :: 0 <= i < |t.bolos| ==> t.bolos[i].id != r.response.body.bolo.id
  {
    var r := CreateBolo(t, creatorId, body, now, origin);
    CreatedRow(t, creatorId, body, now, origin);
    AppendFresh(t, r.response.body.bolo);
  }

  lemma AppendFresh(t: Tables, b: Bolo)
    requires IdsBelowNext(t) && b.id == t.nextBoloId
    ensures IdsBelowNext(t.(bolos := t.bolos + [b], nextBoloId := t.nextBoloId + 1))
    ensures forall i :: 0 <= i < |t.bolos| ==> t.bolos[i].id != b.id
  {
    var t' := t.(bolos := t.bolos + [b], nextBoloId := t.nextBoloId + 1);
    assert forall i :: 0 <= i < |t.bolos| ==> t'.bolos[i] == t.bolos[i];
  }

  // ---------------------------------------------------------------------
  // PUT
  // ---------------------------------------------------------------------

  /** The `SET` list of the update, applied to one row: `type` and
      `main_info` are kept when the request leaves them out (`COALESCE`,
      `NULLIF(…, '')`), `additional_info` and `is_armed` are always
      overwritten. */
  function PutRow(b: Bolo, kind: Option<string>, mainInfo: string, additionalInfo: string,
                  isArmed: bool, now: int): (r: Bolo)
    ensures r.id == b.id && r.createdBy == b.createdBy && r.createdAt == b.createdAt && r.updatedAt == now
    ensures kind.None? ==> r.kind == b.kind
    ensures kind.Some? ==> r.kind == kind.value
    ensures mainInfo == "" ==> r.mainInfo == b.mainInfo
    ensures mainInfo != "" ==> r.mainInfo == mainInfo
    ensures r.additionalInfo == OrNull(additionalInfo) && r.isArmed == isArmed
  {
    b.(kind := kind.GetOr(b.kind),
       mainInfo := if mainInfo == "" then b.mainInfo else mainInfo,
       additionalInfo := OrNull(additionalInfo),
       isArmed := isArmed,
       updatedAt := now)
  }

  /** `UPDATE bolo SET … WHERE id = %s` over the whole table. */
  function UpdateRows(bolos: seq<Bolo>, id: int, kind: Option<string>, mainInfo: string,
                      additionalInfo: string, isArmed: bool, now: int): (r: seq<Bolo>)
    ensures |r| == |bolos|
    ensures forall i :: 0 <= i < |r| ==>
      r[i] == if bolos[i].id == id then PutRow(bolos[i], kind, mainInfo, additionalInfo, isArmed, now) else bolos[i]
  {
    if bolos == [] then []
    else [if bolos[0].id == id then PutRow(bolos[0], kind, mainInfo, additionalInfo, isArmed, now) else bolos[0]]
         + UpdateRows(bolos[1..], id, kind, mainInfo, additionalInfo, isArmed, now)
  }

  predicate HasBolo(bolos: seq<Bolo>, id: int) {
    exists i :: 0 <= i < |bolos| && bolos[i].id == id
  }

  /** PUT: an id is required (400); a type, when given and non-empty, must
      be valid (400); an id with no row gives 404; otherwise the matching
      rows are updated. */
  function UpdateBolo(t: Tables, body: BoloBody, now: int, origin: string): (r: Outcome)
    ensures r.response.status != 200 ==> r.tables == t
    ensures !Truthy(body.id) ==> r.response == ErrorResponse(400, "BOLO ID is required", origin)
    ensures Truthy(body.id) && body.kind.Some? && body.kind.value != "" && body.kind.value !in BoloKinds ==>
      r.response == ErrorResponse(400, "Invalid type", origin)
    ensures r.response.status == 200 <==>
      Truthy(body.id) && (body.kind.None? || body.kind.value == "" || body.kind.value in BoloKinds) && HasBolo(t.bolos, body.id.value)
    ensures Truthy(body.id) && (body.kind.None? || body.kind.value == "" || body.kind.value in BoloKinds)
            && !HasBolo(t.bolos, body.id.value) ==>
      r.response == ErrorResponse(404, "BOLO not found", origin)
    ensures r.response.status == 200 ==>
      r.tables == t.(bolos := UpdateRows(t.bolos, body.id.value, body.kind, Clean(body.mainInfo, 500),
                                         Clean(body.additionalInfo, 1000), body.isArmed.GetOr(false), now))
  {
    if !Truthy(body.id) then Outcome(t, ErrorResponse(400, "BOLO ID is required", origin))
    else if body.kind.Some? && body.kind.value != "" && body.kind.value !in BoloKinds then
      Outcome(t, ErrorResponse(400, "Invalid type", origin))
    else if !HasBolo(t.bolos, body.id.value) then
      Outcome(t, ErrorResponse(404, "BOLO not found", origin))
    else
      var rows := UpdateRows(t.bolos, body.id.value, body.kind, Clean(body.mainInfo, 500),
                             Clean(body.additionalInfo, 1000), body.isArmed.GetOr(false), now);
      Outcome(t.(bolos := rows), Response(200, origin, Success))
  }

  /** A PUT that carries only the id keeps the type and the main text, and
      clears the additional text and the armed flag. */
  lemma UpdateWithOnlyId(t: Tables, id: int, now: int, origin: string)
    requires id != 0 && HasBolo(t.bolos, id)
    ensures var r := UpdateBolo(t, BoloBody(None, "", "", None, Some(id)), now, origin);
      && r.response.status == 200
      && |r.tables.bolos| == |t.bolos|
      && forall i :: 0 <= i < |t.bolos| && t.bolos[i].id == id ==>
           && r.tables.bolos[i].kind == t.bolos[i].kind
           && r.tables.bolos[i].mainInfo == t.bolos[i].mainInfo
           && r.tables.bolos[i].additionalInfo.None?
           && !r.tables.bolos[i].isArmed
  {
    var body := BoloBody(None, "", "", None, Some(id));
    assert Strip("") == "";
    assert Clean("", 500) == "" && Clean("", 1000) == "";
  }

  /** The `bolo_type and …` guard lets an empty type through, and
      `COALESCE('', type)` then stores the empty string as the type. */
  lemma UpdateWithEmptyTypeClearsType(t: Tables, body: BoloBody, now: int, origin: string)
    requires Truthy(body.id) && HasBolo(t.bolos, body.id.value) && body.kind == Some("")
    ensures var r := UpdateBolo(t, body, now, origin);
      && r.response.status == 200
      && forall i :: 0 <= i < |t.bolos| && t.bolos[i].id == body.id.value ==> r.tables.bolos[i].kind == ""
  {
  }

  // ---------------------------------------------------------------------
  // DELETE
  // ---------------------------------------------------------------------

  /** `DELETE FROM bolo WHERE id = %s` */
  function DeleteRows(bolos: seq<Bolo>, id: int): (r: seq<Bolo>)
    ensures |r| <= |bolos|
    ensures forall b :: b in r <==> b in bolos && b.id != id
    ensures HasBolo(bolos, id) ==> |r| < |bolos|
  {
    if bolos == [] then []
    else if bolos[0].id == id then DeleteRows(bolos[1..], id)
    else
      var rest := DeleteRows(bolos[1..], id);
      assert HasBolo(bolos, id) ==> HasBolo(bolos[1..], id) by {
        if HasBolo(bolos, id) {
          var i :| 0 <= i < |bolos| && bolos[i].id == id;
          assert bolos[1..][i - 1] == bolos[i];
        }
      }
      [bolos[0]] + rest
  }

  /** DELETE: an id is required (400); deleting no row gives 404 and
      changes nothing; otherwise exactly the rows with that id go. */
  function DeleteBolo(t: Tables, queryId: Option<int>, origin: string): (r: Outcome)
    ensures r.response.status != 200 ==> r.tables == t
    ensures queryId.None? ==> r.response == ErrorResponse(400, "BOLO ID is required", origin)
    ensures r.response.status == 200 <==> queryId.Some? && HasBolo(t.bolos, queryId.value)
    ensures queryId.Some? && !HasBolo(t.bolos, queryId.value) ==> r.response == ErrorResponse(404, "BOLO not found", origin)
    ensures r.response.status == 200 ==>
      && r.tables == t.(bolos := r.tables.bolos)
      && (forall b :: b in r.tables.bolos <==> b in t.bolos && b.id != queryId.value)
  {
    if queryId.None? then Outcome(t, ErrorResponse(400, "BOLO ID is required", origin))
    else
      var rows := DeleteRows(t.bolos, queryId.value);
      if |rows| == |t.bolos| then Outcome(t, ErrorResponse(404, "BOLO not found", origin))
      else
        assert HasBolo(t.bolos, queryId.value) by {
          if !HasBolo(t.bolos, queryId.value) { NoMatchKeepsAll(t.bolos, queryId.value); }
        }
        Outcome(t.(bolos := rows), Response(200, origin, Success))
  }

  /** A query `id` of "0" is looked up like any other id: it is never
      refused as missing. */
  lemma ZeroQueryIdLookedUp(t: Tables, origin: string)
    ensures DeleteBolo(t, Some(0), origin).response.status in {200, 404}
    ensures !HasBolo(t.bolos, 0) ==> DeleteBolo(t, Some(0), origin) == Outcome(t, ErrorResponse(404, "BOLO not found", origin))
  {
  }

  lemma {:induction false} NoMatchKeepsAll(bolos: seq<Bolo>, id: int)
    requires !HasBolo(bolos, id)
    ensures DeleteRows(bolos, id) == bolos
  {
    if bolos != [] {
      NoMatchKeepsAll(bolos[1..], id);
    }
  }

  // ---------------------------------------------------------------------
  // handler
  // ---------------------------------------------------------------------

  /** `handler(event, context)`: OPTIONS first; then the database URL
      (500), a token (401 'Unauthorized'), a live session (401 'Invalid
      token'); then the method, with no role check for any of them. */
  function Handle(t: Tables, sha256: string -> string, databaseUrl: string, event: BoloEvent, now: int): (r: Outcome)
    ensures r.response.allowOrigin == AllowOrigin(RequestOrigin(event.headers))
    ensures event.httpMethod == "OPTIONS" ==> r == Outcome(t, Response(200, r.response.allowOrigin, NoBody))
    ensures event.httpMethod != "OPTIONS" && databaseUrl == "" ==>
      r.tables == t && r.response.status == 500
    ensures (event.httpMethod != "OPTIONS" && databaseUrl != "" && ExtractToken(event.headers) == "") ==>
      r.tables == t && r.response.body == Error("Unauthorized") && r.response.status == 401
    ensures event.httpMethod != "OPTIONS" && databaseUrl != "" && ExtractToken(event.headers) != ""
            && SessionUser(t.users, t.sessions, sha256(ExtractToken(event.headers)), now).None? ==>
      r == Outcome(t, ErrorResponse(401, "Invalid token", r.response.allowOrigin))
    ensures var origin := r.response.allowOrigin;
      var u := SessionUser(t.users, t.sessions, sha256(ExtractToken(event.headers)), now);
      event.httpMethod != "OPTIONS" && databaseUrl != "" && ExtractToken(event.headers) != "" && u.Some? ==>
        && (event.httpMethod == "GET" ==> r == Outcome(t, Response(200, origin, BoloList(ListBolos(t)))))
        && (event.httpMethod == "POST" ==> r == CreateBolo(t, u.value.id, event.body, now, origin))
        && (event.httpMethod == "PUT" ==> r == UpdateBolo(t, event.body, now, origin))
        && (event.httpMethod == "DELETE" ==> r == DeleteBolo(t, event.queryId, origin))
        && (event.httpMethod !in {"GET", "POST", "PUT", "DELETE"} ==>
              r == Outcome(t, ErrorResponse(405, "Method not allowed", origin)))
    ensures r.response.status !in {200, 201} ==> r.tables == t
  {
    var origin := AllowOrigin(RequestOrigin(event.headers));
    if event.httpMethod == "OPTIONS" then Outcome(t, Response(200, origin, NoBody))
    else if databaseUrl == "" then Outcome(t, ErrorResponse(500, "DATABASE_URL not configured", origin))
    else
      var token := ExtractToken(event.headers);
      if token == "" then Outcome(t, ErrorResponse(401, "Unauthorized", origin))
      else match SessionUser(t.users, t.sessions, sha256(token), now)
        case None => Outcome(t, ErrorResponse(401, "Invalid token", origin))
        case Some(user) =>
          if event.httpMethod == "GET" then Outcome(t, Response(200, origin, BoloList(ListBolos(t))))
          else if event.httpMethod == "POST" then CreateBolo(t, user.id, event.body, now, origin)
          else if event.httpMethod == "PUT" then UpdateBolo(t, event.body, now, origin)
          else if event.httpMethod == "DELETE" then DeleteBolo(t, event.queryId, origin)
          else Outcome(t, ErrorResponse(405, "Method not allowed", origin))
  }

  /** No role is consulted: any user with a live session, whatever their
      role, deletes an existing BOLO. */
  lemma AnyUserMayDelete(t: Tables, sha256: string -> string, databaseUrl: string, event: BoloEvent, now: int, u: User)
    requires event.httpMethod == "DELETE" && databaseUrl != ""
    requires ExtractToken(event.headers) != ""
    requires SessionUser(t.users, t.sessions, sha256(ExtractToken(event.headers)), now) == Some(u)
    requires event.queryId.Some? && HasBolo(t.bolos, event.queryId.value)
    ensures Handle(t, sha256, databaseUrl, event, now).response.status == 200
  {
  }

  /** Likewise any such user creates a valid BOLO, which records them as
      its author. */
  lemma AnyUserMayCreate(t: Tables, sha256: string -> string, databaseUrl: string, event: BoloEvent, now: int, u: User)
    requires event.httpMethod == "POST" && databaseUrl != ""
    requires ExtractToken(event.headers) != ""
    requires SessionUser(t.users, t.sessions, sha256(ExtractToken(event.headers)), now) == Some(u)
    requires event.body.kind.Some? && event.body.kind.value in BoloKinds && Clean(event.body.mainInfo, 500) != ""
    ensures var r := Handle(t, sha256, databaseUrl, event, now);
      && r.response.status == 201 && r.response.body.BoloCreated?
      && r.response.body.bolo.createdBy == u.id && r.response.body.bolo in r.tables.bolos
  {
    var origin := AllowOrigin(RequestOrigin(event.headers));
    assert Handle(t, sha256, databaseUrl, event, now) == CreateBolo(t, u.id, event.body, now, origin);
    CreatedRow(t, u.id, event.body, now, origin);
  }
}
