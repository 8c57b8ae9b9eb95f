/** Credential extraction and the CORS origin choice, written out identically
    in backend/crews/index.py, backend/bolo/index.py and (cookie part only)
    backend/notifications/index.py, plus the `Bearer` removal by substring
    replacement of backend/auth/index.py and backend/users-manage/index.py.
    Request headers are a map from header name to value; a missing header
    reads as ''. */
module Credentials {
  import opened Text

  type Headers = map<string, string>

  const AuthorizationNames := ["Authorization", "authorization", "X-Authorization", "x-authorization"]
  const CookieNames := ["Cookie", "cookie", "X-Cookie", "x-cookie"]
  const OriginNames := ["Origin", "origin"]
  const DefaultOrigin := "https://app.poehali.dev"
  const CookiePrefix := "auth_token="
  const BearerPrefix := "Bearer "

  /** `headers.get(name, '')` */
  function Header(h: Headers, name: string): string {
    if name in h then h[name] else ""
  }

  /** `h.get(a, '') or h.get(b, '') or …`: the first non-empty value, or ''. */
  function FirstNonEmpty(h: Headers, names: seq<string>): (r: string)
    ensures r == "" <==> forall i :: 0 <= i < |names| ==> Header(h, names[i]) == ""
    ensures r != "" ==>
      exists i :: 0 <= i < |names| && r == Header(h, names[i]) && (forall j :: 0 <= j < i ==> Header(h, names[j]) == "")
  {
    if names == [] then ""
    else if Header(h, names[0]) != "" then Header(h, names[0])
    else
      var r := FirstNonEmpty(h, names[1..]);
      assert forall i :: 1 <= i < |names| ==> names[1..][i - 1] == names[i];
      if r != "" then
        var i :| 0 <= i < |names[1..]| && r == Header(h, names[1..][i]) &&
          (forall j :: 0 <= j < i ==> Header(h, names[1..][j]) == "");
        assert forall j :: 0 <= j < i + 1 ==> Header(h, names[j]) == "" by {
          forall j | 0 <= j < i + 1 ensures Header(h, names[j]) == "" {
            if j > 0 { assert names[j] == names[1..][j - 1]; }
          }
        }
        r
      else r
  }

  // ---------------------------------------------------------------------
  // get_cors_headers
  // ---------------------------------------------------------------------

  /** The `Access-Control-Allow-Origin` value: the request's origin when it
      ends with '.poehali.dev' or starts with 'http://localhost', otherwise
      the application's own origin. An absent origin is ''. */
  function AllowOrigin(origin: string): (r: string)
    ensures r == origin <==> origin != "" && (EndsWith(origin, ".poehali.dev") || StartsWith(origin, "http://localhost"))
    ensures r != origin ==> r == DefaultOrigin
  {
    if origin != "" && (EndsWith(origin, ".poehali.dev") || StartsWith(origin, "http://localhost")) then origin
    else
      assert EndsWith(DefaultOrigin, ".poehali.dev") by {
        assert DefaultOrigin[|DefaultOrigin| - 12..] == ".poehali.dev";
      }
      DefaultOrigin
  }

  /** `headers.get('Origin') or headers.get('origin')` */
  function RequestOrigin(h: Headers): string {
    FirstNonEmpty(h, OriginNames)
  }

  /** The prefix test is on the text, not on the host: a look-alike host
      that merely starts with 'http://localhost' is echoed back. */
  lemma LocalhostLookAlikeAllowed()
    ensures AllowOrigin("http://localhost.evil.com") == "http://localhost.evil.com"
  {
    assert StartsWith("http://localhost.evil.com", "http://localhost");
  }

  /** Any origin outside both patterns gets the application's origin. */
  lemma ForeignOriginReplaced(origin: string)
    requires !EndsWith(origin, ".poehali.dev") && !StartsWith(origin, "http://localhost")
    ensures AllowOrigin(origin) == DefaultOrigin
  {
    assert EndsWith(DefaultOrigin, ".poehali.dev") by {
      assert DefaultOrigin[|DefaultOrigin| - 12..] == ".poehali.dev";
    }
  }

  // ---------------------------------------------------------------------
  // extract_token_from_cookie
  // ---------------------------------------------------------------------

  /** The value of a stripped `auth_token=…` segment: what follows its first
      '=', which is the one closing the name. */
  function CookieValue(cookie: string): (r: string)
    requires StartsWith(cookie, CookiePrefix)
    ensures cookie == CookiePrefix + r
    ensures forall i :: 0 <= i < |CookiePrefix| - 1 ==> cookie[i] != '='
  {
    assert cookie[..|CookiePrefix|] == CookiePrefix;
    cookie[|CookiePrefix|..]
  }

  /** The value of the first segment that starts with `auth_token=` once
      stripped, or ''. */
  function CookieTokenIn(segments: seq<string>): string {
    if segments == [] then ""
    else if StartsWith(Strip(segments[0]), CookiePrefix) then CookieValue(Strip(segments[0]))
    else CookieTokenIn(segments[1..])
  }

  /** What `extract_token_from_cookie(cookies)` returns. */
  function CookieToken(cookies: string): string {
    if cookies == "" then "" else CookieTokenIn(Split(cookies, ';'))
  }

  /** `extract_token_from_cookie(cookies)`: scan the ';'-separated segments
      and return at the first `auth_token=` one. */
  method ExtractTokenFromCookie(cookies: string) returns (token: string)
    ensures token == CookieToken(cookies)
  {
    if cookies == "" {
      return "";
    }
    var segments := Split(cookies, ';');
    var i := 0;
    while i < |segments|
      invariant 0 <= i <= |segments|
      invariant CookieTokenIn(segments[i..]) == CookieTokenIn(segments)
    {
      var cookie := Strip(segments[i]);
      if StartsWith(cookie, CookiePrefix) {
        return cookie[|CookiePrefix|..];
      }
      assert segments[i..][1..] == segments[i + 1..];
      i := i + 1;
    }
    return "";
  }

  lemma {:induction false} CookieTokenInAbsent(segments: seq<string>, c: char)
    requires forall k, i :: 0 <= k < |segments| && 0 <= i < |segments[k]| ==> segments[k][i] != c
    ensures forall i :: 0 <= i < |CookieTokenIn(segments)| ==> CookieTokenIn(segments)[i] != c
  {
    if segments != [] {
      var cookie := Strip(segments[0]);
      StripAbsent(segments[0], c);
      if StartsWith(cookie, CookiePrefix) {
        var v := CookieValue(cookie);
        forall i | 0 <= i < |v| ensures v[i] != c {
          assert v[i] == cookie[|CookiePrefix| + i];
        }
      } else {
        CookieTokenInAbsent(segments[1..], c);
      }
    }
  }

  /** The token taken from a cookie header never contains ';'. */
  lemma CookieTokenNoSemicolon(cookies: string)
    ensures forall i :: 0 <= i < |CookieToken(cookies)| ==> CookieToken(cookies)[i] != ';'
  {
    if cookies != "" {
      SplitJoin(cookies, ';');
      CookieTokenInAbsent(Split(cookies, ';'), ';');
    }
  }

  /** A cookie header holding just `auth_token=<t>` yields `t`, for a token
      without ';' that does not end in whitespace. */
  lemma {:induction false} CookieRoundTrip(t: string)
    requires forall i :: 0 <= i < |t| ==> t[i] != ';'
    requires t == "" || !IsPySpace(t[|t| - 1])
    ensures CookieToken(CookiePrefix + t) == t
  {
    var c := CookiePrefix + t;
    PrefixedNoSemicolon(t);
    SplitNoSeparator(c, ';');
    PrefixedStripped(t);
    assert c[..|CookiePrefix|] == CookiePrefix;
    assert CookieTokenIn([c]) == c[|CookiePrefix|..];
  }

  lemma PrefixedNoSemicolon(t: string)
    requires forall i :: 0 <= i < |t| ==> t[i] != ';'
    ensures forall i :: 0 <= i < |CookiePrefix + t| ==> (CookiePrefix + t)[i] != ';'
  {
    var c := CookiePrefix + t;
    forall i | 0 <= i < |c| ensures c[i] != ';' {
      if i >= |CookiePrefix| { assert c[i] == t[i - |CookiePrefix|]; }
    }
  }

  lemma PrefixedStripped(t: string)
    requires t == "" || !IsPySpace(t[|t| - 1])
    ensures Strip(CookiePrefix + t) == CookiePrefix + t
  {
    var c := CookiePrefix + t;
    assert c[0] == 'a';
    assert c[|c| - 1] == if t == "" then '=' else t[|t| - 1];
    StripOfStripped(c);
  }

  // ---------------------------------------------------------------------
  // extract_token
  // ---------------------------------------------------------------------

  /** `extract_token(headers)`: the text after a case-sensitive 'Bearer '
      prefix of the first non-empty authorization header, otherwise the
      `auth_token` cookie of the first non-empty cookie header. */
  function ExtractToken(h: Headers): (r: string)
    ensures var auth := FirstNonEmpty(h, AuthorizationNames);
      && (StartsWith(auth, BearerPrefix) ==> auth == BearerPrefix + r)
      && (!StartsWith(auth, BearerPrefix) ==> r == CookieToken(FirstNonEmpty(h, CookieNames)))
  {
    var auth := FirstNonEmpty(h, AuthorizationNames);
    if StartsWith(auth, BearerPrefix) then
      assert auth == auth[..|BearerPrefix|] + auth[|BearerPrefix|..];
      auth[|BearerPrefix|..]
    else CookieToken(FirstNonEmpty(h, CookieNames))
  }

  /** `Authorization: Bearer <t>` yields `t`, whatever the cookies say. */
  lemma BearerRoundTrip(h: Headers, t: string)
    requires "Authorization" in h && h["Authorization"] == BearerPrefix + t
    ensures ExtractToken(h) == t
  {
    assert Header(h, AuthorizationNames[0]) != "";
    assert (BearerPrefix + t)[..|BearerPrefix|] == BearerPrefix;
  }

  /** The scheme is matched case-sensitively: a lower-case 'bearer' header and
      no cookie give no token at all. */
  lemma LowercaseBearerIgnored(t: string)
    ensures ExtractToken(map["Authorization" := "bearer " + t]) == ""
  {
    var h := map["Authorization" := "bearer " + t];
    assert Header(h, AuthorizationNames[0]) != "";
    assert ("bearer " + t)[0] != BearerPrefix[0];
    assert forall i :: 0 <= i < |CookieNames| ==> Header(h, CookieNames[i]) == "";
  }

  /** Without an authorization header, the `auth_token` cookie is used. */
  lemma CookieFallback(h: Headers, t: string)
    requires forall i :: 0 <= i < |AuthorizationNames| ==> Header(h, AuthorizationNames[i]) == ""
    requires "Cookie" in h && h["Cookie"] == CookiePrefix + t
    requires forall i :: 0 <= i < |t| ==> t[i] != ';'
    requires t == "" || !IsPySpace(t[|t| - 1])
    ensures ExtractToken(h) == t
  {
    assert Header(h, CookieNames[0]) != "";
    CookieRoundTrip(t);
  }

  // ---------------------------------------------------------------------
  // token.replace('Bearer ', '').replace('bearer ', '')
  // ---------------------------------------------------------------------

  /** The token as the auth and user-management handlers read it: the first
      non-empty authorization header with every 'Bearer ' and then every
      'bearer ' deleted, wherever they occur. */
  function StripBearer(header: string): (r: string)
    ensures |r| <= |header|
    ensures header == "" ==> r == ""
  {
    ReplaceAll(ReplaceAll(header, "Bearer ", ""), "bearer ", "")
  }

  /** The substring deletion is not a prefix strip, yet it does give back a
      token that contains neither marker. */
  lemma StripBearerRoundTrip(t: string)
    requires forall i: nat :: !OccursAt(t, "Bearer ", i) && !OccursAt(t, "bearer ", i)
    ensures StripBearer("Bearer " + t) == t
    ensures StripBearer("bearer " + t) == t
  {
    DeleteLeading("Bearer ", t);
    ReplaceAllAbsent(t, "bearer ", "");
    var u := "bearer " + t;
    forall i: nat ensures !OccursAt(u, "Bearer ", i) {
      if i >= 7 {
        if OccursAt(u, "Bearer ", i) {
          ShiftOccurrence(u, "bearer ", t, "Bearer ", i);
          assert false;
        }
      } else if i + 7 <= |u| {
        assert u[i..i + 7][0] == u[i];
      }
    }
    ReplaceAllAbsent(u, "Bearer ", "");
    DeleteLeading("bearer ", t);
  }

  /** Deleting every `pat` from `pat + t` gives `t` when `t` holds none. */
  lemma DeleteLeading(pat: string, t: string)
    requires |pat| > 0
    requires forall i: nat :: !OccursAt(t, pat, i)
    ensures ReplaceAll(pat + t, pat, "") == t
  {
    var s := pat + t;
    assert s[..|pat|] == pat && s[|pat|..] == t;
    ReplaceAllAbsent(t, pat, "");
  }

  /** An occurrence past the prefix is an occurrence in the rest. */
  lemma ShiftOccurrence(u: string, a: string, t: string, pat: string, i: nat)
    requires u == a + t && i >= |a| && OccursAt(u, pat, i)
    ensures OccursAt(t, pat, i - |a|)
  {
    assert u[i..i + |pat|] == t[i - |a|..i - |a| + |pat|];
  }
}
