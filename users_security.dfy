/** The input sanitisers and validators of the user-management back end
    (backend/users-manage/security.py). Each one returns its value or raises
    `ValueError`, which is `Err(message)` here. */
module UsersSecurity {
  import opened Wrappers
  import opened Text
  import opened Html
  import opened Patterns

  /** A Python value handed to `sanitize_string`: a `str`, or anything else. */
  datatype Value = Str(s: string) | NotStr

  const DefaultMaxLength := 500
  const AllowedRoles := ["user", "moderator", "admin", "manager"]

  /** `sanitize_string(value, max_length)`: strip, cut to `max_length`, escape
      HTML, then delete `<`, `>`, `{` and `}`. Only the pre-escape text is
      bounded by `max_length`; decoding the entities gives back that text
      without its braces. */
  function SanitizeString(value: Value, maxLength: int): (r: string)
    ensures value.NotStr? ==> r == ""
    ensures forall i :: 0 <= i < |r| ==> r[i] !in {'<', '>', '{', '}'}
    ensures value.Str? ==> r == Escape(RemoveAny(PyTake(Strip(value.s), maxLength), {'{', '}'}))
    ensures value.Str? ==> Unescape(r) == RemoveAny(PyTake(Strip(value.s), maxLength), {'{', '}'})
    ensures value.Str? && maxLength >= 0 ==> |Unescape(r)| <= maxLength
  {
    match value
    case NotStr => ""
    case Str(s) =>
      var cut := PyTake(Strip(s), maxLength);
      RemoveBracesEscape(cut);
      UnescapeEscape(RemoveAny(cut, {'{', '}'}));
      RemoveAny(Escape(cut), {'<', '>', '{', '}'})
  }

  /** On text that is already stripped, short enough and brace-free,
      sanitising is exactly HTML escaping. */
  lemma SanitizeStrippedText(s: string, maxLength: int)
    requires Strip(s) == s && |s| <= maxLength
    requires forall i :: 0 <= i < |s| ==> s[i] !in {'{', '}'}
    ensures SanitizeString(Str(s), maxLength) == Escape(s)
  {
    var cut := PyTake(Strip(s), maxLength);
    assert cut == PyTake(s, maxLength);
    assert cut == s;
    RemoveAnyKeeps(s, {'{', '}'});
    assert Escape(RemoveAny(cut, {'{', '}'})) == Escape(s);
  }

  /** A second pass escapes the entities of the first: '&' becomes "&amp;"
      and then "&amp;amp;". */
  lemma SanitizeStringNotIdempotent()
    ensures SanitizeString(Str("&"), DefaultMaxLength) == "&amp;"
    ensures SanitizeString(Str(SanitizeString(Str("&"), DefaultMaxLength)), DefaultMaxLength) == "&amp;amp;"
  {
    StripOfStripped("&");
    SanitizeStrippedText("&", DefaultMaxLength);
    EscapeNotIdempotent();
    StripOfStripped("&amp;");
    SanitizeStrippedText("&amp;", DefaultMaxLength);
  }

  /** Python's `re.match(pattern + '$', s)`: `$` also matches just before a
      final newline, so a string with one trailing '\n' whose remainder
      matches is accepted too. */
  predicate PyFullMatch(matches: string -> bool, s: string) {
    matches(s) || (|s| > 0 && s[|s| - 1] == '\n' && matches(s[..|s| - 1]))
  }

  /** `sanitize_email(email)`: strip, lower-case and cut to 254 characters;
      raise unless the result matches the email pattern; then sanitise it
      as a string of at most 254 characters. */
  function SanitizeEmail(email: string): (r: Result<string>)
    ensures var e := PyTake(Lower(Strip(email)), 254);
      && (r.Ok? <==> PyFullMatch(MatchesEmail, e))
      && (r.Err? ==> r.msg == "Invalid email format")
      && (r.Ok? ==> MatchesEmail(r.value) && Count(r.value, '@') == 1)
      && (r.Ok? ==> r.value == e || r.value + "\n" == e)
  {
    var e := PyTake(Lower(Strip(email)), 254);
    if !PyFullMatch(MatchesEmail, e) then Err("Invalid email format")
    else
      AcceptedEmail(e);
      Ok(SanitizeString(Str(e), 254))
  }

  /** What the last step of `sanitize_email` makes of a matched value: the
      address itself, without the newline `$` may have let through. */
  lemma AcceptedEmail(e: string)
    requires |e| <= 254 && PyFullMatch(MatchesEmail, e)
    ensures var r := SanitizeString(Str(e), 254);
      MatchesEmail(r) && Count(r, '@') == 1 && (r == e || r + "\n" == e)
  {
    var address := if MatchesEmail(e) then e else e[..|e| - 1];
    SanitizeAcceptedEmail(e, address);
    EmailHasOneAt(address);
  }

  /** For an accepted address the final sanitising step changes nothing but
      a trailing newline, because the pattern admits none of `& < > " ' { }`
      and no whitespace. */
  lemma SanitizeAcceptedEmail(e: string, address: string)
    requires |e| <= 254
    requires MatchesEmail(address)
    requires e == address || e == address + "\n"
    ensures SanitizeString(Str(e), 254) == address
  {
    AcceptedEmailIsPlain(address);
    StripOfStripped(address);
    if e != address {
      StripTrailingNewline(address);
    }
    assert Strip(e) == address;
    assert SanitizeString(Str(e), 254) == SanitizeString(Str(address), 254);
    SanitizeStrippedText(address, 254);
    EscapePlain(address);
  }

  lemma AcceptedEmailIsPlain(address: string)
    requires MatchesEmail(address)
    ensures address != [] && !IsPySpace(address[0]) && !IsPySpace(address[|address| - 1])
    ensures forall k :: 0 <= k < |address| ==> !IsSpecial(address[k]) && address[k] !in {'{', '}'}
  {
    EmailCharacters(address);
    forall k | 0 <= k < |address| ensures !IsPySpace(address[k]) && !IsSpecial(address[k]) && address[k] !in {'{', '}'} {
      assert IsLocalChar(address[k]) || address[k] == '@';
    }
  }

  lemma StripTrailingNewline(s: string)
    requires s != [] && !IsPySpace(s[0]) && !IsPySpace(s[|s| - 1])
    ensures Strip(s + "\n") == s
  {
    var e := s + "\n";
    assert e[0] == s[0];
    assert TrimStart(e, IsPySpace) == e;
    assert e[..|e| - 1] == s;
    assert TrimEnd(s, IsPySpace) == s;
  }

  /** `sanitize_user_id(user_id)`: strip and cut to 20 characters; raise
      unless the result matches `^[a-zA-Z0-9]+$` under Python's `$`. */
  function SanitizeUserId(userId: string): (r: Result<string>)
    ensures var v := PyTake(Strip(userId), 20);
      && (r.Ok? <==> PyFullMatch(MatchesAlnum, v))
      && (r.Ok? ==> r.value == v && 1 <= |r.value| <= 20)
      && (r.Err? ==> r.msg == "User ID can only contain letters and numbers")
  {
    var v := PyTake(Strip(userId), 20);
    if PyFullMatch(MatchesAlnum, v) then Ok(v)
    else Err("User ID can only contain letters and numbers")
  }

  /** The trailing-newline reading of `$` lets a newline through when the cut
      at 20 characters lands just after an inner newline. */
  lemma SanitizeUserIdKeepsNewline()
    ensures SanitizeUserId("aaaaaaaaaaaaaaaaaaa\nb") == Ok("aaaaaaaaaaaaaaaaaaa\n")
  {
    var s := "aaaaaaaaaaaaaaaaaaa\nb";
    assert TrimStart(s, IsPySpace) == s;
    assert TrimEnd(s, IsPySpace) == s;
    assert PyTake(s, 20) == "aaaaaaaaaaaaaaaaaaa\n";
    assert MatchesAlnum("aaaaaaaaaaaaaaaaaaa");
  }

  /** The evidently intended check: the whole value, with no trailing
      newline, consists of letters and digits. */
  function SanitizeUserIdStrict(userId: string): (r: Result<string>)
    ensures var v := PyTake(Strip(userId), 20);
      && (r.Ok? <==> MatchesAlnum(v))
      && (r.Ok? ==> r.value == v && 1 <= |r.value| <= 20)
      && (r.Ok? ==> forall i :: 0 <= i < |r.value| ==> IsAlnum(r.value[i]))
  {
    var v := PyTake(Strip(userId), 20);
    if MatchesAlnum(v) then Ok(v)
    else Err("User ID can only contain letters and numbers")
  }

  /** The two readings differ exactly on values that end in one newline. */
  lemma StrictDiffersOnlyOnNewline(userId: string)
    ensures SanitizeUserId(userId) != SanitizeUserIdStrict(userId) ==>
      var v := PyTake(Strip(userId), 20);
      SanitizeUserId(userId).Ok? && v[|v| - 1] == '\n'
  {
  }

  /** `validate_password(password)`: 6 to 128 characters, returned as is. */
  function ValidatePassword(password: string): (r: Result<string>)
    ensures r.Ok? <==> 6 <= |password| <= 128
    ensures r.Ok? ==> r.value == password
    ensures |password| < 6 ==> r == Err("Password must be at least 6 characters")
    ensures |password| > 128 ==> r == Err("Password is too long")
  {
    if |password| < 6 then Err("Password must be at least 6 characters")
    else if |password| > 128 then Err("Password is too long")
    else Ok(password)
  }

  /** `validate_role(role)`: one of the four roles, returned as is. */
  function ValidateRole(role: string): (r: Result<string>)
    ensures r.Ok? <==> role == "user" || role == "moderator" || role == "admin" || role == "manager"
    ensures r.Ok? ==> r.value == role
  {
    if role in AllowedRoles then Ok(role)
    else Err("Invalid role. Allowed: user, moderator, admin, manager")
  }
}
