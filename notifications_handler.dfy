/** The notification service (backend/notifications/index.py): a user's
    latest notifications, creating one for oneself, and marking one's own
    notification as read. The token comes from the `auth_token` cookie
    only. */
module NotificationsHandler {
  import opened Wrappers
  import opened Text
  import opened Credentials
  import opened Store
  import opened Ordering

  const NotificationKinds := ["info", "warning", "error", "success"]
  const PageSize := 50

  /** The JSON body; `kind` is the `type` field, `None` when absent. */
  datatype NotificationBody = NotificationBody(message: string, kind: Option<string>,
                                               relatedCrewId: Option<int>, relatedBoloId: Option<int>,
                                               notificationId: Option<int>)

  datatype NotificationEvent = NotificationEvent(httpMethod: string, headers: Headers, body: NotificationBody)

  predicate Truthy(o: Option<int>) {
    o.Some? && o.value != 0
  }

  /** The token: the `auth_token` value in the first non-empty cookie header. */
  function RequestToken(h: Headers): (r: string)
    ensures FirstNonEmpty(h, CookieNames) == "" ==> r == ""
    ensures forall i :: 0 <= i < |r| ==> r[i] != ';'
  {
    CookieTokenNoSemicolon(FirstNonEmpty(h, CookieNames));
    CookieToken(FirstNonEmpty(h, CookieNames))
  }

  // ---------------------------------------------------------------------
  // get_notifications
  // ---------------------------------------------------------------------

  function OwnedBy(rows: seq<Notification>, userId: nat): (r: seq<Notification>)
    ensures forall i :: 0 <= i < |r| ==> r[i].userId == userId
    ensures forall n :: n in r <==> n in rows && n.userId == userId
  {
    if rows == [] then []
    else if rows[0].userId == userId then [rows[0]] + OwnedBy(rows[1..], userId)
    else OwnedBy(rows[1..], userId)
  }

  /** `ORDER BY created_at DESC` */
  predicate NewerOrSame(a: Notification, b: Notification) {
    a.createdAt >= b.createdAt
  }

  /** `get_notifications(current_user)`: the user's own rows, newest first,
      at most fifty of them. */
  function GetNotifications(t: Tables, userId: nat): (r: seq<Notification>)
    ensures |r| <= PageSize
    ensures forall n :: n in r ==> n in t.notifications && n.userId == userId
    ensures SortedBy(r, NewerOrSame)
    ensures |OwnedBy(t.notifications, userId)| <= PageSize ==>
      multiset(r) == multiset(OwnedBy(t.notifications, userId))
    ensures |r| == if |OwnedBy(t.notifications, userId)| <= PageSize then |OwnedBy(t.notifications, userId)| else PageSize
    ensures multiset(r) <= multiset(OwnedBy(t.notifications, userId))
  {
    var own := OwnedBy(t.notifications, userId);
    var sorted := SortBy(own, NewerOrSame);
    SortByPermutes(own, NewerOrSame);
    assert TotalPreorder(NewerOrSame);
    SortBySorted(own, NewerOrSame);
    var r := if |sorted| <= PageSize then sorted else sorted[..PageSize];
    assert sorted == r + sorted[|r|..];
    assert multiset(sorted) == multiset(r) + multiset(sorted[|r|..]);
    forall n | n in r ensures n in own {
      assert n in sorted;
      assert n in multiset(sorted);
    }
    r
  }

  /** Of a user's notifications, the fifty returned are the newest: any
      left out is no newer than every one returned. */
  lemma {:induction false} OmittedAreOlder(t: Tables, userId: nat, n: Notification)
    requires n in OwnedBy(t.notifications, userId)
    requires n !in GetNotifications(t, userId)
    ensures forall m :: m in GetNotifications(t, userId) ==> m.createdAt >= n.createdAt
  {
    var own := OwnedBy(t.notifications, userId);
    var sorted := SortBy(own, NewerOrSame);
    SortByPermutes(own, NewerOrSame);
    assert TotalPreorder(NewerOrSame);
    SortBySorted(own, NewerOrSame);
    assert n in multiset(sorted);
    var k :| 0 <= k < |sorted| && sorted[k] == n;
    assert k >= PageSize;
    forall m | m in GetNotifications(t, userId) ensures m.createdAt >= n.createdAt {
      var j :| 0 <= j < PageSize && sorted[j] == m;
    }
  }

  // ---------------------------------------------------------------------
  // create_notification
  // ---------------------------------------------------------------------

  /** `create_notification(event, current_user)`: the stripped message is
      required, the type defaults to 'info' and must be one of the four
      kinds; the row belongs to the caller, is unread, and 201 returns its
      id and time. */
  function CreateNotification(t: Tables, userId: nat, body: NotificationBody, now: int, origin: string): (r: Outcome)
    ensures Strip(body.message) == "" ==> r == Outcome(t, ErrorResponse(400, "Message is required", origin))
    ensures Strip(body.message) != "" && body.kind.GetOr("info") !in NotificationKinds ==>
      r == Outcome(t, ErrorResponse(400, "Invalid notification type", origin))
    ensures r.response.status == 201 <==> Strip(body.message) != "" && body.kind.GetOr("info") in NotificationKinds
    ensures r.response.status == 201 ==>
      && r.response.body == NotificationCreated(t.nextNotificationId, now)
      && r.tables == t.(notifications := t.notifications + [
           Notification(t.nextNotificationId, userId, Strip(body.message), body.kind.GetOr("info"), false, now,
                        body.relatedCrewId, body.relatedBoloId)],
                        nextNotificationId := t.nextNotificationId + 1)
  {
    var message := Strip(body.message);
    var kind := body.kind.GetOr("info");
    if message == "" then Outcome(t, ErrorResponse(400, "Message is required", origin))
    else if kind !in NotificationKinds then Outcome(t, ErrorResponse(400, "Invalid notification type", origin))
    else
      var n := Notification(t.nextNotificationId, userId, message, kind, false, now, body.relatedCrewId, body.relatedBoloId);
      Outcome(t.(notifications := t.notifications + [n], nextNotificationId := t.nextNotificationId + 1),
              Response(201, origin, NotificationCreated(n.id, now)))
  }

  /** A notification the caller creates is listed for the caller as soon as
      the caller has fewer than fifty. */
  lemma CreatedIsListed(t: Tables, userId: nat, body: NotificationBody, now: int, origin: string)
    requires CreateNotification(t, userId, body, now, origin).response.status == 201
    requires |OwnedBy(t.notifications, userId)| < PageSize
    ensures var t' := CreateNotification(t, userId, body, now, origin).tables;
      t'.notifications[|t.notifications|] in GetNotifications(t', userId)
  {
    var t' := CreateNotification(t, userId, body, now, origin).tables;
    var n := t'.notifications[|t.notifications|];
    OwnedByAppend(t.notifications, n, userId);
    assert n in multiset(OwnedBy(t'.notifications, userId));
  }

  lemma {:induction false} OwnedByAppend(rows: seq<Notification>, n: Notification, userId: nat)
    ensures OwnedBy(rows + [n], userId) == OwnedBy(rows, userId) + (if n.userId == userId then [n] else [])
  {
    if rows != [] {
      assert (rows + [n])[1..] == rows[1..] + [n];
      OwnedByAppend(rows[1..], n, userId);
    }
  }

  // ---------------------------------------------------------------------
  // mark_as_read
  // ---------------------------------------------------------------------

  predicate Targets(n: Notification, id: int, userId: nat) {
    n.id == id && n.userId == userId
  }

  function MarkRead(rows: seq<Notification>, id: int, userId: nat): (r: seq<Notification>)
    ensures |r| == |rows|
    ensures forall i :: 0 <= i < |rows| ==> r[i] == if Targets(rows[i], id, userId) then rows[i].(isRead := true) else rows[i]
  {
    if rows == [] then []
    else [if Targets(rows[0], id, userId) then rows[0].(isRead := true) else rows[0]] + MarkRead(rows[1..], id, userId)
  }

  predicate AnyTargeted(rows: seq<Notification>, id: int, userId: nat) {
    exists i :: 0 <= i < |rows| && Targets(rows[i], id, userId)
  }

  /** `mark_as_read(event, current_user)`: a truthy `notification_id` is
      required (400); only the caller's own row with that id is marked
      (404 when there is none); 200 otherwise. */
  function MarkAsRead(t: Tables, userId: nat, body: NotificationBody, origin: string): (r: Outcome)
    ensures !Truthy(body.notificationId) ==>
      r == Outcome(t, ErrorResponse(400, "notification_id is required", origin))
    ensures Truthy(body.notificationId) && !AnyTargeted(t.notifications, body.notificationId.value, userId) ==>
      r == Outcome(t, ErrorResponse(404, "Notification not found or access denied", origin))
    ensures r.response.status == 200 <==>
      Truthy(body.notificationId) && AnyTargeted(t.notifications, body.notificationId.value, userId)
    ensures r.tables == t.(notifications := r.tables.notifications)
    ensures |r.tables.notifications| == |t.notifications|
    ensures forall i :: 0 <= i < |t.notifications| ==>
      (r.tables.notifications[i] == t.notifications[i] || (t.notifications[i].userId == userId
                                                           && r.tables.notifications[i] == t.notifications[i].(isRead := true)))
    ensures r.response.status != 200 ==> r.tables == t
    ensures r.response.status == 200 ==>
      r.tables == t.(notifications := MarkRead(t.notifications, body.notificationId.value, userId))
  {
    if !Truthy(body.notificationId) then Outcome(t, ErrorResponse(400, "notification_id is required", origin))
    else
      var id := body.notificationId.value;
      if !AnyTargeted(t.notifications, id, userId) then
        Outcome(t, ErrorResponse(404, "Notification not found or access denied", origin))
      else
        Outcome(t.(notifications := MarkRead(t.notifications, id, userId)), Response(200, origin, Success))
  }

  /** Marking twice leaves the table as marking once, and a repeated mark
      of a notification that was marked succeeds again. */
  lemma MarkAsReadIdempotent(t: Tables, userId: nat, body: NotificationBody, origin: string)
    ensures var t1 := MarkAsRead(t, userId, body, origin).tables;
      MarkAsRead(t1, userId, body, origin).tables == t1
    ensures var t1 := MarkAsRead(t, userId, body, origin).tables;
      MarkAsRead(t, userId, body, origin).response.status == 200 ==>
        MarkAsRead(t1, userId, body, origin).response.status == 200
  {
    var t1 := MarkAsRead(t, userId, body, origin).tables;
    var t2 := MarkAsRead(t1, userId, body, origin).tables;
    assert t2.notifications == t1.notifications;
    if MarkAsRead(t, userId, body, origin).response.status == 200 {
      var id := body.notificationId.value;
      var i :| 0 <= i < |t.notifications| && Targets(t.notifications[i], id, userId);
      assert Targets(t1.notifications[i], id, userId);
    }
  }

  /** Another user's notification cannot be marked: 404 and nothing changes. */
  lemma OthersNotificationUntouched(t: Tables, userId: nat, body: NotificationBody, origin: string)
    requires Truthy(body.notificationId)
    requires forall i :: 0 <= i < |t.notifications| && t.notifications[i].id == body.notificationId.value ==>
      t.notifications[i].userId != userId
    ensures MarkAsRead(t, userId, body, origin).response.status == 404
    ensures MarkAsRead(t, userId, body, origin).tables == t
  {
  }

  // ---------------------------------------------------------------------
  // handler
  // ---------------------------------------------------------------------

  /** `handler(event, context)`: OPTIONS answers first; the cookie token is
      required (401) and must open a live session (401); GET, POST and PUT
      pick the operation, anything else is 405. Every answer carries the
      allowed origin. */
  function Handle(t: Tables, sha256: string -> string, event: NotificationEvent, now: int): (r: Outcome)
    ensures r.response.allowOrigin == AllowOrigin(RequestOrigin(event.headers))
    ensures event.httpMethod == "OPTIONS" ==> r == Outcome(t, Response(200, r.response.allowOrigin, NoBody))
    ensures event.httpMethod != "OPTIONS" && RequestToken(event.headers) == "" ==>
      r == Outcome(t, ErrorResponse(401, "Authentication required", r.response.allowOrigin))
    ensures event.httpMethod != "OPTIONS" && RequestToken(event.headers) != ""
            && VerifyToken(t, sha256, RequestToken(event.headers), now).None? ==>
      r == Outcome(t, ErrorResponse(401, "Invalid token", r.response.allowOrigin))
    ensures r.tables != t ==> event.httpMethod in {"POST", "PUT"}
    ensures var u := VerifyToken(t, sha256, RequestToken(event.headers), now);
      u.Some? && event.httpMethod != "OPTIONS" ==>
        && (event.httpMethod == "GET" ==>
              r == Outcome(t, Response(200, r.response.allowOrigin, NotificationList(GetNotifications(t, u.value.id)))))
        && (event.httpMethod == "POST" ==> r == CreateNotification(t, u.value.id, event.body, now, r.response.allowOrigin))
        && (event.httpMethod == "PUT" ==> r == MarkAsRead(t, u.value.id, event.body, r.response.allowOrigin))
        && (event.httpMethod !in {"GET", "POST", "PUT"} ==>
              r == Outcome(t, ErrorResponse(405, "Method not allowed", r.response.allowOrigin)))
  {
    var origin := AllowOrigin(RequestOrigin(event.headers));
    if event.httpMethod == "OPTIONS" then Outcome(t, Response(200, origin, NoBody))
    else
      var token := RequestToken(event.headers);
      if token == "" then Outcome(t, ErrorResponse(401, "Authentication required", origin))
      else match VerifyToken(t, sha256, token, now)
        case None => Outcome(t, ErrorResponse(401, "Invalid token", origin))
        case Some(user) =>
          if event.httpMethod == "GET" then
            Outcome(t, Response(200, origin, NotificationList(GetNotifications(t, user.id))))
          else if event.httpMethod == "POST" then CreateNotification(t, user.id, event.body, now, origin)
          else if event.httpMethod == "PUT" then MarkAsRead(t, user.id, event.body, origin)
          else Outcome(t, ErrorResponse(405, "Method not allowed", origin))
  }

  /** A bearer token alone does not authenticate here: without a cookie the
      answer is 401 whatever the authorization headers say. */
  lemma BearerIgnored(t: Tables, sha256: string -> string, event: NotificationEvent, now: int)
    requires event.httpMethod != "OPTIONS"
    requires forall i :: 0 <= i < |CookieNames| ==> CookieNames[i] !in event.headers
    ensures Handle(t, sha256, event, now).response.status == 401
  {
    assert FirstNonEmpty(event.headers, CookieNames) == "";
  }

  /** A listing shows only the caller's own notifications. */
  lemma ListingShowsOwnOnly(t: Tables, sha256: string -> string, event: NotificationEvent, now: int, u: User)
    requires event.httpMethod == "GET" && RequestToken(event.headers) != ""
    requires VerifyToken(t, sha256, RequestToken(event.headers), now) == Some(u)
    ensures var b := Handle(t, sha256, event, now).response.body;
      b.NotificationList? && |b.notifications| <= PageSize
      && forall n :: n in b.notifications ==> n.userId == u.id
  {
  }
}
