# Dispatch portal core, modelled in Dafny

The portal is a role-based roster and dispatch web application. Patrol crews, BOLO ("be on the lookout") alerts, user accounts, activity logs and notifications are kept by a set of Python cloud functions. A React single-page client calls them. This project models the rules that decide what those functions and the client do. Rendering, transport and storage engines are left out.

The model has three layers.

**Back end.** The Python handlers become pure functions over a value `Store.Tables`. It holds the users, sessions, crews, crew_members, bolo and notifications tables. Each request returns the new tables together with the HTTP response (`Outcome`). A SQL query is modelled only by its effect on those tables. The clock (`NOW()`) is the integer `now`, in seconds. `sha256` and `sha512` are hex-digest function parameters. The random salt and session token come in as a `Fresh` value.
- `rate_limiter.dfy` models the login rate limiter. It is a class with two map fields: attempts per IP and block expiry per IP.
- `users_security.dfy`, `bolo_security.dfy` and `html.dfy` model the input sanitisers and validators. `patterns.dfy` holds their regular expressions as character-class predicates. `Result` stands for `ValueError`.
- `credentials.dfy` models three things. It models bearer-token extraction from the `Authorization` header (section 2.1 of RFC 6750, with a case-sensitive `Bearer ` prefix). It models the `auth_token` cookie lookup (a simplified reading of section 4.2 of RFC 6265). It models the CORS allow-origin choice.
- `store.dfy` models the shared tables and `verify_token`.
- The handlers: `crews_handler.dfy`, `bolo_handler.dfy`, `auth_handler.dfy`, `users_manage_handler.dfy` and `notifications_handler.dfy`. `ordering.dfy` gives the `ORDER BY` sorts.

**Client.**
- `client_auth.dfy`: the session store of `src/lib/auth.ts`. It is a class whose `localStorage` is a map field.
- `settings_panel.dfy`: the user-administration panel. It is a class for the component state, plus pure functions for the role menus and the two tabs.
- `dashboard.dfy`: the crew board of `src/pages/Index.tsx`.
- `crews_api.dfy`, `users_api.dfy` and `logs_api.dfy`: the request builders and error mapping. They share the JSON and query-string shapes of `client_http.dfy`.

A server reply is an input to each client method. The client records the calls it makes as a list.

**Shared.** `text.dfy` and `wrappers.dfy` hold ASCII string helpers (strip, lower, zfill, decimal rendering, split, replace) and the `Option`/`Result` types.

## Model

| member | source | states |
|---|---|---|
| RateLimiter.Recent | backend/auth/rate_limiter.py:22-25 | the kept attempts are all newer than the cutoff, are taken from the list, and are no more than the list had |
| RateLimiter.Failures | backend/auth/rate_limiter.py:44 | the number of failed attempts never exceeds the number of attempts |
| RateLimiter.RemainingFor | backend/auth/rate_limiter.py:57-58 | the remaining count lies in 0..MAX_ATTEMPTS and is 0 exactly when the failures reach MAX_ATTEMPTS |
| RateLimiter.Limiter.constructor | backend/auth/rate_limiter.py:10-13 | both stores start empty |
| RateLimiter.Limiter.CleanOldAttempts | backend/auth/rate_limiter.py:19-25 | the IP's list becomes its attempts newer than now minus the window, in order; other IPs and the blocks are untouched |
| RateLimiter.Limiter.IsBlocked | backend/auth/rate_limiter.py:27-36 | true iff the IP has an unblock time strictly after now; an expired block is deleted and the IP's attempts emptied; otherwise nothing changes |
| RateLimiter.Limiter.RecordAttempt | backend/auth/rate_limiter.py:38-52 | the list becomes the cleaned window plus exactly one (now, success) entry; it returns true and sets the unblock time to now plus the block period iff the failures in the new list reach MAX_ATTEMPTS, and leaves the blocks alone otherwise |
| RateLimiter.Limiter.GetRemainingAttempts | backend/auth/rate_limiter.py:54-58 | cleans the window as CleanOldAttempts does and returns max(0, MAX_ATTEMPTS minus the failures left) |
| RateLimiter.CountFailures | backend/auth/rate_limiter.py:44 | the counting loop returns exactly the number of failed attempts |
| RateLimiter.RecentAppend | backend/auth/rate_limiter.py:22-25 | cleaning keeps order: the window of a concatenation is the concatenation of the windows |
| RateLimiter.RecentKeeps | backend/auth/rate_limiter.py:22-25 | an attempt survives cleaning iff it was recorded and is newer than the cutoff |
| RateLimiter.RecentTwice | backend/auth/rate_limiter.py:19-25 | cleaning with an older cutoff and then a newer one equals cleaning once with the newer one |
| RateLimiter.FailuresAppend | backend/auth/rate_limiter.py:41-44 | appending an attempt adds one failure if it failed and none if it succeeded |
| RateLimiter.FailuresRecent | backend/auth/rate_limiter.py:56-57 | cleaning never increases the failure count |
| RateLimiter.RecentOfExpired | backend/auth/rate_limiter.py:54-58 | when every attempt is older than the window, the window is empty and all MAX_ATTEMPTS attempts remain |
| RateLimiter.FailureLowersRemaining | backend/auth/rate_limiter.py:38-58 | at a fixed time a failed attempt lowers the remaining attempts by exactly one until they reach 0 |
| RateLimiter.SuccessKeepsFailures | backend/auth/rate_limiter.py:44-50 | a successful attempt leaves the failure count of the window, and so the remaining attempts and the blocking decision, unchanged |
| RateLimiter.FifthFailureBlocks | backend/auth/rate_limiter.py:44-50 | with four failures in the window, one more failure reaches the threshold |
| RateLimiter.SameTimeClean | backend/auth/rate_limiter.py:56 | cleaning again at the same moment, just after a record, removes nothing |
| RateLimiter.FiveFailuresBlockThenReset | backend/auth/rate_limiter.py:27-58 | five failures at one time block the IP; it stays blocked within the block period; once the period is over the block lifts and the full MAX_ATTEMPTS are available again |
| RateLimiter.FailRepeatedly | backend/auth/rate_limiter.py:38-52 | five failed records on a fresh limiter leave five failures and a block ending the block period after now, and the fifth record returns true |
| RateLimiter.FailOnce | backend/auth/rate_limiter.py:38-52 | after k earlier failures at the same time, one more failure gives k+1 failures and blocks exactly when k+1 reaches MAX_ATTEMPTS |
| RateLimiter.RepeatRecent | backend/auth/rate_limiter.py:22-25 | attempts recorded at now are all inside the window at now |
| RateLimiter.FailuresRepeat | backend/auth/rate_limiter.py:44 | k failed attempts count as k failures |
| UsersSecurity.SanitizeString | backend/users-manage/security.py:4-18 | '' for a non-string; otherwise exactly the HTML escape of the stripped, max_length-truncated input with its braces removed, so it contains no '<', '>', '{' or '}', unescaping it gives that text back and only the text before escaping is bounded by max_length |
| UsersSecurity.SanitizeStrippedText | backend/users-manage/security.py:14-16 | already-stripped, short, brace-free text comes out as its HTML escape |
| UsersSecurity.SanitizeStringNotIdempotent | backend/users-manage/security.py:15 | '&' becomes '&amp;' on a first pass and '&amp;amp;' on a second |
| UsersSecurity.SanitizeEmail | backend/users-manage/security.py:20-28 | raises 'Invalid email format' unless the stripped, lower-cased, 254-cut input matches the pattern (Python `$` admitting one final newline); an accepted result matches the pattern, has exactly one '@', and is that text without the newline |
| UsersSecurity.SanitizeAcceptedEmail | backend/users-manage/security.py:24-28 | for an accepted address the final sanitising is the identity, apart from dropping a trailing newline |
| UsersSecurity.AcceptedEmailIsPlain | backend/users-manage/security.py:24 | an address the pattern accepts has no outer whitespace and none of & < > " ' { } |
| UsersSecurity.StripTrailingNewline | backend/users-manage/security.py:14 | stripping removes exactly the one trailing newline from otherwise unpadded text |
| UsersSecurity.SanitizeUserId | backend/users-manage/security.py:30-37 | accepts iff the stripped, 20-cut input matches `^[a-zA-Z0-9]+$` under Python's `$`; an accepted id is that text, 1 to 20 characters; otherwise it raises the letters-and-numbers error |
| UsersSecurity.SanitizeUserIdKeepsNewline | backend/users-manage/security.py:32-34 | an input whose 20-character cut ends in an inner newline is accepted with the newline kept |
| UsersSecurity.SanitizeUserIdStrict | backend/users-manage/security.py:30-37 | the corrected check: accepts iff the cut text is non-empty and all letters and digits |
| UsersSecurity.StrictDiffersOnlyOnNewline | backend/users-manage/security.py:34 | the code as written and the corrected check disagree only on accepted values ending in a newline |
| UsersSecurity.ValidatePassword | backend/users-manage/security.py:39-45 | accepts iff the length is 6 to 128 and returns the password unchanged; the two errors are raised for too short and too long |
| UsersSecurity.ValidateRole | backend/users-manage/security.py:47-52 | accepts exactly 'user', 'moderator', 'admin' and 'manager' and returns the role unchanged |
| BoloSecurity.SanitizeString | backend/bolo/security.py:4-15 | '' for a non-string; otherwise exactly the HTML escape of the stripped, truncated input with its braces removed, so no '<', '>', '{' or '}' remains and unescaping gives that text back with the other characters in their order |
| BoloSecurity.SameAsUsersManage | backend/bolo/security.py:4-15 | computes the same function as the users-manage sanitize_string on every input |
| Html.EscapeChar | backend/users-manage/security.py:15 | every character escapes to a non-empty text |
| Html.Escape | backend/users-manage/security.py:15 | `html.escape` never shortens the text (what it produces is stated by EscapeAppend, EscapeCharacters and UnescapeEscape) |
| Html.RemoveAny | backend/users-manage/security.py:16 | the regex removal leaves none of the removed characters and never lengthens the text |
| Html.EscapeAppend | backend/users-manage/security.py:15 | escaping works character by character: it distributes over concatenation |
| Html.UnescapeEscapeChar | backend/users-manage/security.py:15 | unescaping one escaped character gives the character back |
| Html.UnescapeEntity | backend/users-manage/security.py:15 | each of the five entities html.escape emits unescapes to its character |
| Html.UnescapeEscape | backend/users-manage/security.py:15 | html.escape loses nothing: unescaping its output gives the input back |
| Html.EscapeCharacters | backend/users-manage/security.py:15-16 | escaped text holds no '<', '>', '"' or "'", and any brace in it was in the input |
| Html.RemoveBracesEscape | backend/users-manage/security.py:15-16 | removing <>{} after escaping equals escaping after removing the braces |
| Html.RemoveBracesEscapeChar | backend/users-manage/security.py:15-16 | the same for a single character |
| Html.RemoveAnyAppend | backend/users-manage/security.py:16 | the removal distributes over concatenation, so the kept characters keep their order |
| Html.RemoveAnyKeeps | backend/users-manage/security.py:16 | text with none of the removed characters is unchanged |
| Html.EscapePlain | backend/users-manage/security.py:15 | text with none of & < > " ' is unchanged by escaping |
| Html.EscapeNotIdempotent | backend/users-manage/security.py:15 | escaping '&' twice gives '&amp;amp;' |
| Patterns.DomainHasNoAt | backend/users-manage/security.py:24 | the domain part of the email pattern has no '@' |
| Patterns.EmailHasOneAt | backend/users-manage/security.py:24 | an address the email pattern matches has exactly one '@' |
| Patterns.EmailEndsInTld | src/lib/security.ts:25 | a matching address ends in '.' and at least two letters |
| Patterns.EmailCharacters | backend/users-manage/security.py:24 | every character of a matching address is a local-part character or the '@' |
| ClientSecurity.RemoveAllIgnoreCase | src/lib/security.ts:15 | the single case-insensitive pass never lengthens the text |
| ClientSecurity.RemoveAllIgnoreCaseDeletes | src/lib/security.ts:15 | the pass only deletes characters: the result is a sub-multiset of the input |
| ClientSecurity.Run | src/lib/security.ts:16 | `\w+` and `\s*` take the longest run of matching characters |
| ClientSecurity.HandlerMatch | src/lib/security.ts:16 | a match of `on\w+\s*=` is at least four characters, starts with 'on' in any case and ends in '=' |
| ClientSecurity.RemoveHandlers | src/lib/security.ts:16 | removing handler attributes never lengthens the text |
| ClientSecurity.RemoveHandlersDeletes | src/lib/security.ts:16 | the removal only deletes characters |
| ClientSecurity.SanitizeText | src/lib/security.ts:5-19 | '' for an empty or non-string input; otherwise a sub-multiset of the trimmed, maxLength-cut text, at most maxLength long, with no '<', '>', '{' or '}' |
| ClientSecurity.RemoveAnySubMultiset | src/lib/security.ts:12 | the bracket removal only deletes characters |
| ClientSecurity.SanitizeTextNotIdempotent | src/lib/security.ts:15-16 | 'javajavascript:script:' sanitises to 'javascript:', which a second pass turns into '' |
| ClientSecurity.SanitizeExposed | src/lib/security.ts:15 | the first half of the non-idempotence example |
| ClientSecurity.SanitizeScheme | src/lib/security.ts:15 | the second half: 'javascript:' alone sanitises to '' |
| ClientSecurity.SanitizePlainText | src/lib/security.ts:9-16 | for unpadded short text with no brackets and no 'o', sanitising is just the 'javascript:' removal |
| ClientSecurity.NoHandlerAfterRemoval | src/lib/security.ts:16 | text without any 'o' has no handler attribute to remove |
| ClientSecurity.RemoveScriptExposes | src/lib/security.ts:15 | one pass over 'javajavascript:script:' leaves 'javascript:' |
| ClientSecurity.ExposedMatch | src/lib/security.ts:15 | removing the one inner occurrence splices the two halves into a new occurrence |
| ClientSecurity.KeepPrefix | src/lib/security.ts:15 | a prefix where no match starts is kept as it is |
| ClientSecurity.RemoveScriptPrefix | src/lib/security.ts:15 | a leading 'javascript:' is removed and a short remainder kept |
| ClientSecurity.RemoveLeading | src/lib/security.ts:15 | a leading occurrence of the pattern is removed and a shorter remainder kept |
| ClientSecurity.NoHandler | src/lib/security.ts:16 | text with no 'on' in any case loses nothing to the handler removal |
| ClientSecurity.ValidateEmail | src/lib/security.ts:24-27 | true exactly for strings matching the email pattern; accepted strings have one '@' and end in '.' plus two or more letters |
| ClientSecurity.ValidateUserId | src/lib/security.ts:53-55 | true exactly for non-empty strings of ASCII letters and digits |
| ClientSecurity.ValidateUserIdRejectsNewline | src/lib/security.ts:54 | JavaScript's `$` rejects a trailing newline that Python's accepts |
| ClientSecurity.SafeJsonParse | src/lib/security.ts:42-48 | the parsed value when the text parses, the fallback when parsing throws |
| Credentials.FirstNonEmpty | backend/crews/index.py:34-36 | '' exactly when every listed header is missing or empty; otherwise the value of the first non-empty one, all earlier ones being empty |
| Credentials.AllowOrigin | backend/crews/index.py:9-11 | the origin is echoed back exactly when it is non-empty and ends with '.poehali.dev' or starts with 'http://localhost'; any other origin gets 'https://app.poehali.dev' |
| Credentials.LocalhostLookAlikeAllowed | backend/crews/index.py:11 | the prefix test is textual: 'http://localhost.evil.com' is echoed back |
| Credentials.ForeignOriginReplaced | backend/crews/index.py:11 | an origin matching neither pattern is replaced by the application's origin |
| Credentials.CookieValue | backend/crews/index.py:27-28 | the value after the first '=' of an 'auth_token=' segment is the text following that prefix, since the name holds no '=' |
| Credentials.ExtractTokenFromCookie | backend/crews/index.py:21-30 | the loop over the ';'-separated, stripped segments returns the value of the first 'auth_token=' segment, '' when there is none or the header is empty |
| Credentials.CookieTokenInAbsent | backend/crews/index.py:25-28 | a character absent from every segment is absent from the extracted value |
| Credentials.CookieTokenNoSemicolon | backend/crews/index.py:21-30 | the cookie token never contains ';' |
| Credentials.CookieRoundTrip | backend/crews/index.py:21-30 | a header 'auth_token=t' yields t, for t without ';' and not ending in whitespace |
| Credentials.PrefixedNoSemicolon | backend/crews/index.py:25 | 'auth_token=' followed by a text without ';' has no ';' and so is one segment |
| Credentials.PrefixedStripped | backend/crews/index.py:26 | stripping leaves 'auth_token=t' unchanged when t does not end in whitespace |
| Credentials.ExtractToken | backend/crews/index.py:32-40 | with a case-sensitive 'Bearer ' prefix on the first non-empty authorization header the token is the rest of that header; otherwise it is the cookie token of the first non-empty cookie header |
| Credentials.BearerRoundTrip | backend/crews/index.py:34-37 | 'Authorization: Bearer t' yields t whatever the cookies hold |
| Credentials.LowercaseBearerIgnored | backend/crews/index.py:36 | 'bearer t' (lower case) without cookies yields no token |
| Credentials.CookieFallback | backend/crews/index.py:38-40 | with no authorization header, the 'auth_token' cookie is the token |
| Credentials.StripBearerRoundTrip | backend/auth/index.py:45 | deleting every 'Bearer ' and then every 'bearer ' gives back t from 'Bearer t' or 'bearer t' when t holds neither marker |
| Credentials.StripBearer | backend/auth/index.py:44-45 | the token read from the authorization header is never longer than the header and is empty when the header is |
| Store.View | backend/users-manage/index.py:97-103 | the listing's view carries exactly the selected columns of the row (id, public id, e-mail, full name, role, active flag, creation time) and no password hash |
| Store.Account | backend/auth/index.py:190-198 | the user a login or a verification returns carries the id, public id, e-mail, full name, role and active flag of the row, and neither the password hash (deleted at :228) nor the creation time, which are not selected (:268) |
| Store.ErrorResponse | backend/crews/index.py:356-363 | the response carries the given status and an 'error' body with the given message |
| Store.FindUser | backend/crews/index.py:84-106 | some row with that id when there is one, none exactly when no row has it |
| Store.SessionUser | backend/crews/index.py:95-101 | a user found is a row of the table with a live session (hash matches, expiry after now) pointing at it; none means no live session with that hash points at an existing user |
| Store.VerifyToken | backend/crews/index.py:84-106 | an empty token opens nothing; a user returned is opened by a live session whose hash is the token's sha256 |
| Store.ExpiredSessionRejected | backend/crews/index.py:99 | a session whose expiry is not after now opens nothing |
| Store.LiveSessionAccepted | backend/crews/index.py:95-101 | a live session of an existing user opens exactly that user |
| CrewsHandler.MemberIds | backend/crews/index.py:247-255 | x is among the ids exactly when some membership row links x to the crew |
| CrewsHandler.CanManageCrew | backend/crews/index.py:126-137 | permission holds exactly for moderators, admins and managers, the crew's creator and its members |
| CrewsHandler.MemberCanManage | backend/crews/index.py:135-136 | a member of a crew may manage it |
| CrewsHandler.FindCrew | backend/crews/index.py:243-258 | a crew found is in the table with that id; none exactly when no crew has it |
| CrewsHandler.SetStatus | backend/crews/index.py:268-273 | same length; the crew with that id gets the status and update time, every other crew unchanged |
| CrewsHandler.SetLocation | backend/crews/index.py:291-296 | same length; the crew with that id gets the location and update time, every other crew unchanged |
| CrewsHandler.DeleteMembersOf | backend/crews/index.py:339 | exactly the membership rows of other crews remain |
| CrewsHandler.DeleteCrewRows | backend/crews/index.py:340 | exactly the crews with another id remain |
| CrewsHandler.Roster | backend/crews/index.py:143-160 | an id is listed exactly when it has a membership row in that crew and a user row exists for it |
| CrewsHandler.KeepExisting | backend/crews/index.py:152-154 | keeps exactly the ids of existing users |
| CrewsHandler.Views | backend/crews/index.py:143-171 | one view per crew, in order, each with that crew's roster |
| CrewsHandler.GetCrews | backend/crews/index.py:139-176 | 200 with a crew list as long as the crews table |
| CrewsHandler.GetCrewsNewestFirst | backend/crews/index.py:160 | the list is ordered by creation time, newest first, and is a permutation of the table |
| CrewsHandler.CreateCrew | backend/crews/index.py:178-232 | 200 exactly when the sanitised callsign is non-empty, a truthy second member is in no crew and the creator is in no crew; otherwise 400 and no change; on success one 'available' crew with the next id is appended and only the crews, memberships and crew counter change |
| CrewsHandler.CreateCrewMembers | backend/crews/index.py:208-217 | a successful creation appends the creator's membership row and then the second member's when one is given |
| CrewsHandler.CreateCrewChecksSecondMemberFirst | backend/crews/index.py:192-199 | when both users are already in crews, 'Selected user is already in a crew' is reported |
| CrewsHandler.CreateCrewKeepsOneCrewPerUser | backend/crews/index.py:192-217 | a creation whose second member is not the creator keeps every user in at most one crew |
| CrewsHandler.CreateCrewSelfAsSecondMember | backend/crews/index.py:192-217 | naming oneself as second member succeeds and gives the creator two membership rows |
| CrewsHandler.DuplicateRowBreaksOneCrew | backend/crews/index.py:208-217 | two rows appended for the same user break the one-crew-per-user invariant |
| CrewsHandler.CrewGate | backend/crews/index.py:237-261 | a missing crew_id is refused with 400 'crew_id is required', an id no crew has with 404 'Crew not found', and a crew the user may not manage with 403 'Access denied'; the gate passes exactly otherwise and gives the crew with that id from the table |
| CrewsHandler.BodyId | backend/crews/index.py:237-240 | a body crew_id counts as given exactly when it is present and non-zero, Python's `not crew_id` test, and then keeps its value |
| CrewsHandler.UpdateCrew | backend/crews/index.py:234-305 | a gate refusal is answered with the gate's status and message; a missing or unknown status gives 400 'Invalid status' and any other action 400 'Invalid action'; every refusal changes nothing; 200 exactly when the gate passes and the action is a valid status update or a location update; then the crews table becomes the table with that crew's status, or its sanitised 200-character location, and the update time set, and nothing else changes |
| CrewsHandler.UpdateLocationOnlyThatCrew | backend/crews/index.py:291-299 | a location update stores the sanitised location and the update time on the crews with that id, keeps their status and leaves every other crew as it was |
| CrewsHandler.SetLocationOnlyThatCrew | backend/crews/index.py:293-296 | `UPDATE crews SET location …, updated_at … WHERE id` sets the location and time on the crews with that id, keeps their status and leaves the other crews and the order as they were |
| CrewsHandler.UpdateStatusOnlyThatCrew | backend/crews/index.py:263-289 | a successful status update sets that crew's status, keeps its callsign and leaves every other crew as it was |
| CrewsHandler.OutsiderCannotUpdate | backend/crews/index.py:260-261 | a user with no managing role who neither created nor joined the crew gets 403 'Access denied' and nothing changes |
| CrewsHandler.DeleteCrew | backend/crews/index.py:307-354 | a gate refusal on the query's crew_id is answered with the gate's status and message and changes nothing; 200 exactly when the gate passes; then exactly that crew and its membership rows are removed and nothing else changes |
| CrewsHandler.ZeroQueryIdLookedUp | backend/crews/index.py:310-330 | the query text '0' is truthy, so it is looked up instead of refused with 400: the answer is 200, 403 or 404, and 404 'Crew not found' with no change when no crew has id 0 |
| CrewsHandler.DeleteMembersOfKeepsOneCrewPerUser | backend/crews/index.py:339 | deleting a crew's memberships keeps every user in at most one crew |
| CrewsHandler.TailOneCrewPerUser | backend/crews/index.py:197-199 | the invariant holds of the tail of the membership rows |
| CrewsHandler.HeadNotInTail | backend/crews/index.py:339 | under the invariant the first row's user has no row among the remaining rows kept |
| CrewsHandler.ConsOneCrewPerUser | backend/crews/index.py:197-199 | a row whose user has no other row can be added in front keeping the invariant |
| CrewsHandler.Handle | backend/crews/index.py:42-77 | OPTIONS answers 200 with no change; otherwise no token gives 401 'Authentication required', a token opening no live session 401 'Invalid token', an unknown method 405; every response carries the allowed origin and no refusal changes the tables; a request whose token opens a live session gets exactly what `Route` answers for that user |
| CrewsHandler.Route | backend/crews/index.py:65-75 | GET lists the crews, POST creates, PUT updates and DELETE deletes with the query's crew_id; any other method gives 405 'Method not allowed' and no change; every response carries the origin and only a 200 changes the tables |
| CrewsHandler.NewRowsKeepOneCrewPerUser | backend/crews/index.py:206-217 | appending the creator's row and, when truthy, a distinct second member's row keeps each user in at most one crew, provided neither was in a crew |
| CrewsHandler.HandleKeepsOneCrewPerUser | backend/crews/index.py:42-77 | every request except a creation naming its own creator as second member keeps each user in at most one crew |
| BoloHandler.OrNull | backend/bolo/index.py:188 | `additional_info or None`: null exactly for the empty text, the text itself otherwise |
| BoloHandler.AuthorName | backend/bolo/index.py:124-127 | an author name is present exactly when the author's user row exists |
| BoloHandler.BoloViews | backend/bolo/index.py:131-142 | one entry per row, in order, each carrying its row |
| BoloHandler.CollectBolos | backend/bolo/index.py:131-142 | the append loop builds exactly the listing of the fetched rows |
| BoloHandler.BoloViewsAppend | backend/bolo/index.py:132-142 | one more fetched row adds exactly its own entry at the end |
| BoloHandler.ListBolos | backend/bolo/index.py:122-152 | the listing has one entry per BOLO in the table |
| BoloHandler.ListBolosNewestFirst | backend/bolo/index.py:128 | the listing is ordered by creation time, newest first, and is a permutation of the table |
| BoloHandler.CreateBolo | backend/bolo/index.py:154-213 | a missing or unknown type gives 400 'Invalid type' first, then an empty sanitised main text 400 'Main info is required', both with no change; 201 exactly when both checks pass, appending the returned row and advancing the id counter |
| BoloHandler.CreatedRow | backend/bolo/index.py:182-188 | the new row has the next id, the caller as author, the requested type, the non-empty sanitised main text, is_armed defaulting to false, and a null additional text exactly when the sanitised one is empty |
| BoloHandler.CreatedIdFresh | backend/bolo/index.py:184-190 | the id handed out differs from every existing row's and the ids stay below the counter |
| BoloHandler.AppendFresh | backend/bolo/index.py:184-190 | appending a row with the counter's id keeps every id below the next counter value |
| BoloHandler.PutRow | backend/bolo/index.py:244-251 | the updated row keeps its id, author and creation time and takes the update time; the type is kept when none is sent, the main text when the sanitised one is empty; the additional text and the armed flag are always overwritten |
| BoloHandler.UpdateRows | backend/bolo/index.py:244-253 | same length; exactly the rows with that id are rewritten, the others unchanged |
| BoloHandler.UpdateBolo | backend/bolo/index.py:215-280 | no truthy id gives 400 'BOLO ID is required'; a non-empty unknown type 400 'Invalid type'; a valid request for an id no row has 404 'BOLO not found'; 200 exactly when the id is truthy, the type is absent, empty or valid and a row has the id; then the bolo table becomes the rows with that id rewritten with the type, the sanitised 500- and 1000-character texts, is_armed (false when absent) and the update time, and nothing else changes; a refusal changes nothing |
| BoloHandler.UpdateWithOnlyId | backend/bolo/index.py:229-253 | a body with only the id keeps the type and main text and clears the additional text and the armed flag |
| BoloHandler.UpdateWithEmptyTypeClearsType | backend/bolo/index.py:234-246 | an empty type passes the check and is stored as the type |
| BoloHandler.DeleteRows | backend/bolo/index.py:300 | exactly the rows with another id remain, strictly fewer when a row had the id |
| BoloHandler.DeleteBolo | backend/bolo/index.py:282-327 | an absent or empty query id gives 400 'BOLO ID is required'; 200 exactly when a row has the id, and then exactly the rows with that id go; a given id no row has gives 404 'BOLO not found'; a refusal changes nothing |
| BoloHandler.ZeroQueryIdLookedUp | backend/bolo/index.py:282-300 | the query text '0' is truthy, so it is looked up instead of refused with 400: the answer is 200 or 404, and 404 'BOLO not found' with no change when no row has id 0 |
| BoloHandler.NoMatchKeepsAll | backend/bolo/index.py:300-302 | deleting an id no row has leaves the table as it was |
| BoloHandler.Handle | backend/bolo/index.py:58-348 | OPTIONS answers 200 with no change; then a missing database URL gives 500, no token 401 'Unauthorized' and a token without a live session 401 'Invalid token', in that order; a signed-in user's GET lists the bolos, POST creates, PUT updates, DELETE deletes with the query id and any other method gives 405 'Method not allowed'; every response carries the allowed origin and only 200 and 201 change the tables |
| BoloHandler.AnyUserMayDelete | backend/bolo/index.py:282-327 | any user with a live session, whatever their role, deletes an existing BOLO |
| BoloHandler.AnyUserMayCreate | backend/bolo/index.py:154-213 | any user with a live session creates a valid BOLO, recorded with them as author and present in the table |
| AuthHandler.HexHasNoDollar | backend/auth/index.py:70-72 | hex text, as the salt and the digest are, contains no '$' |
| AuthHandler.HashPassword | backend/auth/index.py:68-72 | for a salt and digest without '$', the stored text splits on '$' into exactly the salt and sha512(password + salt) |
| AuthHandler.VerifyPassword | backend/auth/index.py:74-81 | a password can verify only against a stored text with exactly one '$' |
| AuthHandler.HashThenVerify | backend/auth/index.py:68-81 | a password verifies against its own hash |
| AuthHandler.HashThenVerifyWhen | backend/auth/index.py:68-81 | whenever the salt and the digest are hex text, the stored `salt$digest` verifies the password it was made from |
| AuthHandler.OnlyThatPasswordVerifies | backend/auth/index.py:74-81 | with a collision-free digest, only the hashed password verifies against the hash |
| AuthHandler.MalformedHashRejected | backend/auth/index.py:76-81 | a stored text with no '$' or with more than one never verifies, the failed unpacking giving false |
| AuthHandler.FindByEmail | backend/auth/index.py:113-115 | a user found is in the table with that e-mail; none exactly when no row has it |
| AuthHandler.FindByUserId | backend/auth/index.py:189-193 | a user found is in the table with that public id; none exactly when no row has it |
| AuthHandler.FindsTheOnlyUser | backend/auth/index.py:189-193 | a user whose public id no other row shares is the user found by that id |
| AuthHandler.PublicId | backend/auth/index.py:134 | the public id `str(id).zfill(5)` is all digits and at least five long |
| AuthHandler.RegisterError | backend/auth/index.py:87-122 | registration is refused exactly when a trimmed field is empty, the password is shorter than six characters or the normalised e-mail is already taken |
| AuthHandler.Register | backend/auth/index.py:87-170 | 201 exactly when the trimmed e-mail, password and trimmed name are non-empty, the password has six characters and the normalised e-mail is unused; otherwise 400 with no change; on success exactly the new user row and a 30-day session for it are appended |
| AuthHandler.RegisteredUser | backend/auth/index.py:123-140 | the new row has the next id, the zero-padded public id, the trimmed lower-cased e-mail, the salted hash and not the password, and starts as an inactive 'user' |
| AuthHandler.NewUser | backend/auth/index.py:123-140 | the new row's public id is all digits and at least five long, and the password just given verifies against the stored hash when the salt and digest are hex |
| AuthHandler.LoginLookup | backend/auth/index.py:189-200 | input of at most five digits is looked up by its zero-padded public id, anything else by its lower-cased e-mail; a user found is in the table, and nothing is found exactly when no row has that id or e-mail |
| AuthHandler.Login | backend/auth/index.py:172-249 | an empty stripped input or password gives 400; an unknown user and a wrong password give the same 401 'Invalid email or password'; the right password on an inactive account gives 403; 200 exactly otherwise, adding exactly one 30-day session for the returned token and returning the user without the hash; a refusal changes nothing |
| AuthHandler.LoginFailuresIndistinguishable | backend/auth/index.py:202-208 | an unknown account and a wrong password both get 401 'Invalid email or password' and no change |
| AuthHandler.InactiveAfterPasswordCheck | backend/auth/index.py:210-216 | an inactive account with the right password gets 403 and no change |
| AuthHandler.LoginByShortId | backend/auth/index.py:189-193 | the input '42' logs in the active user '00042' |
| AuthHandler.HighIdsCannotLogInById | backend/auth/index.py:134-190 | a user whose internal id reached 100000 has a public id of six or more digits that no id login can match |
| AuthHandler.RegisterThenLoginAwaitsActivation | backend/auth/index.py:87-216 | logging in right after registering finds the new account and answers 403, as it is not yet active |
| AuthHandler.FindByEmailAppend | backend/auth/index.py:114-197 | an appended row is found by an e-mail no earlier row had |
| AuthHandler.Verify | backend/auth/index.py:251-299 | an empty token gives 401 'Token required'; 200 exactly when the token opens a live session, answering its user without the hash |
| AuthHandler.Handle | backend/auth/index.py:9-61 | OPTIONS answers 200; any method but POST 405; an unknown action 400 'Invalid action', all with no change; a POST with action register, login or verify is exactly the outcome of `Register`, `Login` or `Verify` (on the bearer-stripped authorization header); verify never changes the tables |
| AuthHandler.LoginThenVerify | backend/auth/index.py:218-286 | the token a login returns, verified next, gives back the user the login returned |
| AuthHandler.SessionUserSkips | backend/auth/index.py:267-273 | sessions with another hash do not affect which user a token opens |
| UsersManageHandler.Where | backend/users-manage/index.py:96-101 | `WHERE is_active = …`: every row kept has that flag, every row with it is kept, and no row is invented |
| UsersManageHandler.WherePartitions | backend/users-manage/index.py:96-101 | the inactive and the active rows together are as many as the table |
| UsersManageHandler.NewerOrSameTotal | backend/users-manage/index.py:98-104 | `ORDER BY created_at DESC` is a total preorder |
| UsersManageHandler.ByPublicIdTotal | backend/users-manage/index.py:101 | `ORDER BY user_id` (text order) is a total preorder |
| UsersManageHandler.Listed | backend/users-manage/index.py:89-104 | 'pending' gives a permutation of the inactive users newest first, 'active' one of the active users by public id, anything else (default 'all') one of all users newest first |
| UsersManageHandler.Views | backend/users-manage/index.py:97-113 | one view per row, in order, each without the password hash |
| UsersManageHandler.GetUsers | backend/users-manage/index.py:87-123 | 200 with the listed users and a total equal to their number |
| UsersManageHandler.PendingAndActiveCoverAll | backend/users-manage/index.py:96-104 | the pending and the active totals add up to the total of the whole list |
| UsersManageHandler.UpdatesFor | backend/users-manage/index.py:150-160 | clauses are collected exactly when a full name is present or the role is one of the four assignable roles; a role clause carries the requested valid role, a name clause the requested name, and a non-empty list ends with the `updated_at` stamp |
| UsersManageHandler.Assign | backend/users-manage/index.py:150-161 | the clauses never touch the id, public id, e-mail, password hash, activation flag or creation time; the last full_name clause sets the name and the last role clause the role, and without one the old value stays; updated_at becomes now exactly when the touch clause is present |
| UsersManageHandler.UpdateWhere | backend/users-manage/index.py:139-161 | same length; exactly the rows with that id are rewritten |
| UsersManageHandler.UpdateUser | backend/users-manage/index.py:125-176 | no truthy user_id gives 400 'user_id is required', an unknown action 400 'Invalid action' and an update with nothing to set 400 'No fields to update'; every refusal is 400 with no change; 200 exactly for 'activate', 'deactivate', or 'update' with clauses to apply; then only the rows with that id change, becoming active, inactive, or the row with the clauses assigned |
| UsersManageHandler.ActivateIdempotent | backend/users-manage/index.py:138-142 | activating twice leaves the tables as activating once |
| UsersManageHandler.ActivateSetsActive | backend/users-manage/index.py:138-142 | after 'activate' the row with that id is its old self with the flag set |
| UsersManageHandler.UnknownRoleIgnored | backend/users-manage/index.py:156-166 | an update carrying only a role outside the four is answered 400 'No fields to update' with no change |
| UsersManageHandler.UpdateAppliesFields | backend/users-manage/index.py:150-164 | an update with a name or a valid role sets the name when one is given, sets a valid role and ignores an invalid one, stamps the update time and changes nothing else in the row |
| UsersManageHandler.DeactivateSetsInactive | backend/users-manage/index.py:144-148 | 'deactivate' clears is_active on the user's row and leaves the rest of the row unchanged |
| UsersManageHandler.DeactivateIdempotent | backend/users-manage/index.py:144-148 | deactivating a second time leaves the tables as the first deactivation left them |
| UsersManageHandler.DeleteSessionsOf | backend/users-manage/index.py:193 | exactly the sessions of other users remain |
| UsersManageHandler.DeleteUsersWithId | backend/users-manage/index.py:194 | exactly the rows with another id remain |
| UsersManageHandler.DeleteUser | backend/users-manage/index.py:178-203 | a non-admin gets 403 before the parameter is read; an admin without user_id 400; 200 exactly for an admin with a user_id, removing exactly that user's rows and sessions and nothing else |
| UsersManageHandler.DeletedUserLoggedOut | backend/users-manage/index.py:193-194 | after a deletion no token opens the deleted account |
| UsersManageHandler.Handle | backend/users-manage/index.py:8-54 | OPTIONS answers 200; then no token gives 401 'Authentication required', a token without a live session 401 'Invalid token', a user who is neither admin nor manager 403, all with no change; for an admin or manager GET lists by the status query, POST updates, DELETE deletes by the query's user_id and any other method gives 405 'Method not allowed'; the tables change only on POST or DELETE by an admin or manager |
| UsersManageHandler.ManagerCannotDelete | backend/users-manage/index.py:180-181 | a manager's DELETE is refused with 403 'Only admin can delete users' and no change |
| UsersManageHandler.ManagerMayAssignAdmin | backend/users-manage/index.py:150-164 | no check bounds the role a manager assigns: a manager can make any user an admin |
| UsersManageHandler.DeactivatedAdminStillAdmits | backend/users-manage/index.py:61-85 | the session lookup ignores is_active: a deactivated admin with a live session still lists users |
| NotificationsHandler.OwnedBy | backend/notifications/index.py:109 | `WHERE user_id = %s`: exactly the rows of that user |
| NotificationsHandler.GetNotifications | backend/notifications/index.py:100-126 | exactly min(own, 50) rows, where own is the number of the caller's rows; each is the caller's own, drawn from them as a sub-multiset, newest first; when the caller has at most fifty, exactly those |
| NotificationsHandler.OmittedAreOlder | backend/notifications/index.py:110-111 | a notification of the caller's left out of the fifty is no newer than any returned |
| NotificationsHandler.CreateNotification | backend/notifications/index.py:128-167 | an empty stripped message gives 400 'Message is required', then a type (default 'info') outside info, warning, error, success gives 400 'Invalid notification type', both with no change; 201 exactly otherwise, appending one unread row of the caller with the next id and returning its id and time |
| NotificationsHandler.CreatedIsListed | backend/notifications/index.py:100-167 | a notification just created is listed for its author while the author has fewer than fifty |
| NotificationsHandler.OwnedByAppend | backend/notifications/index.py:109-151 | an appended row joins its owner's rows at the end and nobody else's |
| NotificationsHandler.MarkRead | backend/notifications/index.py:181-185 | same length; exactly the caller's rows with that id become read |
| NotificationsHandler.MarkAsRead | backend/notifications/index.py:169-202 | no truthy id gives 400; no row of the caller with that id gives 404 'Notification not found or access denied', both with no change; otherwise 200 with the new table exactly the old one with the caller's row of that id marked read; a row changes only by becoming read and only when it is the caller's |
| NotificationsHandler.MarkAsReadIdempotent | backend/notifications/index.py:181-185 | marking twice leaves the table as marking once, and a second mark of a row the first mark found answers 200 again |
| NotificationsHandler.OthersNotificationUntouched | backend/notifications/index.py:184-190 | another user's notification cannot be marked: 404 and no change |
| NotificationsHandler.Handle | backend/notifications/index.py:31-66 | OPTIONS answers 200; no cookie token gives 401 'Authentication required', a token without a live session 401 'Invalid token', both with no change; for a signed-in user GET lists their notifications, POST creates one, PUT marks one read and any other method gives 405 'Method not allowed'; only POST and PUT change the tables; every response carries the allowed origin |
| NotificationsHandler.RequestToken | backend/notifications/index.py:45-46 | no cookie header gives no token, and a token taken from the cookie never contains ';' |
| NotificationsHandler.BearerIgnored | backend/notifications/index.py:45-49 | without a cookie header the answer is 401 whatever the authorization headers say |
| NotificationsHandler.ListingShowsOwnOnly | backend/notifications/index.py:56-126 | a listing holds at most fifty notifications, all the caller's own |
| Ordering.Insert | backend/crews/index.py:160 | inserting adds exactly one row |
| Ordering.SortBy | backend/crews/index.py:160 | sorting keeps the number of rows |
| Ordering.InsertPermutes | backend/crews/index.py:160 | inserting adds exactly that row to the multiset |
| Ordering.SortByPermutes | backend/crews/index.py:160 | `ORDER BY` returns exactly the rows it was given |
| Ordering.InsertSorted | backend/crews/index.py:160 | inserting into a sorted list under a total preorder keeps it sorted |
| Ordering.SortBySorted | backend/crews/index.py:160 | under a total preorder the result is in the requested order |
| Text.TrimStart | backend/users-manage/security.py:14 | the result is a suffix of the input that does not start with whitespace |
| Text.TrimEnd | backend/users-manage/security.py:14 | the result is a prefix of the input that does not end with whitespace |
| Text.Strip | backend/users-manage/security.py:14 | `str.strip()` never lengthens the text (StripEnds: no whitespace remains at either end) |
| Text.StripEnds | backend/users-manage/security.py:14 | `str.strip()` leaves no whitespace at either end |
| Text.StripOfStripped | backend/users-manage/security.py:14 | a text with no whitespace at either end is unchanged by stripping |
| Text.StripIdempotent | backend/users-manage/security.py:14 | stripping twice is stripping once |
| Text.Lower | backend/users-manage/security.py:22 | `lower()` keeps the length and lower-cases each character in place |
| Text.PyTake | backend/users-manage/security.py:14 | `s[:n]` is the prefix of length min(n, len(s)) for n ≥ 0 and drops -n characters from the end for negative n |
| Text.JsTake | src/lib/security.ts:9 | `substring(0, n)` is a prefix of at most n characters, empty for negative n |
| Text.CountAppend | backend/auth/index.py:77 | occurrences of a character in a concatenation add up |
| Text.CountAbsent | backend/auth/index.py:77 | a text without the character has no occurrences of it |
| Text.Split | backend/crews/index.py:25 | `split` on one character gives at least one piece |
| Text.SplitJoin | backend/crews/index.py:25 | joining the pieces with the separator gives back the text, and no piece contains the separator |
| Text.SplitPiecesFree | backend/crews/index.py:25 | no piece of a split contains the separator |
| Text.SplitNoSeparator | backend/auth/index.py:77 | a text without the separator splits into itself alone |
| Text.SplitAtSeparator | backend/auth/index.py:72-77 | 'a' + separator + 'b', with no separator in 'a', splits into 'a' followed by the pieces of 'b' |
| Text.SplitLength | backend/auth/index.py:77 | there is one more piece than separators, so `salt, pwd_hash = …` unpacks only with exactly one '$' |
| Text.StripAbsent | backend/crews/index.py:26 | stripping introduces no character |
| Text.ReplaceAllShrinks | backend/auth/index.py:45 | deleting every occurrence of a pattern never lengthens the text |
| Text.ReplaceAllAbsent | backend/auth/index.py:45 | a text without the pattern is left unchanged by `replace` |
| Text.ReplaceAll | backend/auth/index.py:45 | `str.replace` with a replacement no longer than the pattern never lengthens the text |
| Text.NatToString | backend/auth/index.py:134 | `str(n)` is a non-empty string of digits |
| Text.Pow10 | backend/auth/index.py:134 | powers of ten are positive |
| Text.NatToStringLengthPow | backend/auth/index.py:134 | `str(n)` has more than k digits exactly when n ≥ 10^k |
| Text.NatToStringLength | backend/auth/index.py:134 | `str(n)` has at least six digits exactly from 100000 on |
| Text.NatToStringInjective | backend/auth/index.py:134 | distinct numbers have distinct decimal texts |
| Text.Zeros | backend/auth/index.py:134 | k zero characters |
| Text.ZFill | backend/auth/index.py:134-190 | `zfill(width)` pads to width characters and leaves longer texts at their length |
| Text.LexLeTotal | backend/users-manage/index.py:101 | any two texts compare in `ORDER BY user_id` order |
| Text.LexLeTransitive | backend/users-manage/index.py:101 | that text order is transitive |
| ClientHttp.Lookup | src/lib/users-api.ts:79-88 | a value is found exactly when some entry has the key, and it is the value of such an entry |
| ClientHttp.Keys | src/lib/logs-api.ts:33-41 | the keys of the entries, in order |
| ClientHttp.SetEntry | src/lib/logs-api.ts:34-41 | afterwards the key maps to the value and every other key to what it did; an existing key keeps its place, a new key goes last |
| ClientHttp.SetEntryKeepsKeysUnique | src/lib/logs-api.ts:34-41 | setting never creates a second entry with the same key |
| ClientHttp.ErrorField | src/lib/users-api.ts:26-27 | a non-empty message is the body's string `error` field |
| ClientHttp.ServerFailure | src/lib/users-api.ts:25-28 | a body that is not JSON makes the parse throw; otherwise the thrown message is the server's non-empty `error` or the fallback |
| ClientHttp.ServerFailureCaught | src/lib/crews-api.ts:30-33 | with the parse error caught, a body that is not JSON gives 'Network error' and any other body the same message as without the catch |
| UsersApi.GetUsersUrl | src/lib/users-api.ts:14-15 | the plain URL exactly for 'all', otherwise the URL with `?status=` and the status |
| UsersApi.UpdateRequest | src/lib/users-api.ts:72-97 | a POST whose body holds action 'update', the numeric user_id, and each optional field exactly when it is defined (the new public id under 'new_user_id'), with no other key and no key twice |
| UsersApi.AssignIfDefined | src/lib/users-api.ts:84-88 | a defined value is set under its key, an undefined one leaves the body as it was; no other key changes and keys stay unique |
| UsersApi.RequestOf | src/lib/users-api.ts:14-118 | getUsers sends a GET to its URL; activate and deactivate a POST with their action and the numeric user_id; delete a DELETE with `?user_id=` and the id |
| UsersApi.Fallback | src/lib/users-api.ts:27-116 | each call's fallback error message is non-empty |
| UsersApi.FailureOf | src/lib/users-api.ts:25-117 | the failure is a JSON parse error exactly when the reply body is not JSON; otherwise the server's non-empty error is thrown, or the call's non-empty fallback message when that error is empty or missing |
| UsersApi.UpdateFailureOf | src/lib/users-api.ts:99-102 | for updateUser: a parse error exactly when the body is not JSON, otherwise the server's non-empty error or 'Failed to update user' |
| LogsApi.Given | src/lib/logs-api.ts:37-41 | a filter counts exactly when it is defined and non-empty |
| LogsApi.SetIfGiven | src/lib/logs-api.ts:37-41 | a given filter is set under its key, another leaves the query as it was; no other key changes and keys stay unique |
| LogsApi.GetLogs | src/lib/logs-api.ts:32-52 | a GET with `resource=logs` and each filter present exactly when it was given non-empty, no other key and no key twice |
| LogsApi.SetFilters | src/lib/logs-api.ts:36-42 | the five conditional sets leave `resource=logs` and exactly the given filters |
| LogsApi.CreateLog | src/lib/logs-api.ts:54-72 | a POST carrying the entry as body and only `resource=logs` in the query |
| LogsApi.DeleteLog | src/lib/logs-api.ts:74-85 | a DELETE with `resource=logs` and the decimal id as `log_id`, never `delete_all` |
| LogsApi.DeleteAllLogs | src/lib/logs-api.ts:87-100 | a DELETE with `resource=logs` and `delete_all=true`, never a `log_id` |
| LogsApi.FailureOf | src/lib/logs-api.ts:49-97 | a reply that is not ok throws a fixed non-empty message, whatever the server said |
| CrewsApi.MemberIds | src/lib/crews-api.ts:113-118 | an id is collected exactly when some member of some crew has it |
| CrewsApi.IdsOfMembers | src/lib/crews-api.ts:115-117 | an id is collected exactly when some member has it |
| CrewsApi.Outside | src/lib/crews-api.ts:120 | exactly the users whose id is not taken are kept |
| CrewsApi.OutsideAppend | src/lib/crews-api.ts:120 | filtering keeps order: filtering a concatenation filters each part in turn |
| CrewsApi.GetAvailableUsers | src/lib/crews-api.ts:94-121 | a failed users fetch throws 'Failed to fetch users', a failed crews fetch 'Failed to fetch crews', and otherwise the result is the users outside every crew |
| CrewsApi.AvailableUsers | src/lib/crews-api.ts:113-120 | the nested forEach loops collect every crew's member ids, and the result is exactly the users outside that set, in order |
| CrewsApi.AddMemberIds | src/lib/crews-api.ts:115-117 | the inner loop adds exactly the ids of the crew's members |
| CrewsApi.MemberIdsSnoc | src/lib/crews-api.ts:114-118 | one more crew adds exactly its members' ids |
| CrewsApi.AvailableMeansCrewless | src/lib/crews-api.ts:94-121 | a user is offered exactly when it is in the active list and no member of any crew has its id |
| CrewsApi.GetCrewsResult | src/lib/crews-api.ts:24-37 | an ok reply gives its crews or [] when the field is missing; any other reply fails with the server's error, 'Network error' for a body that is not JSON, or 'Failed to fetch crews' |
| CrewsApi.RequestOf | src/lib/crews-api.ts:24-92 | each call's method, URL and body: createCrew sends the callsign, and the location and second member with their values exactly when defined; the updates send crew_id, their action and the new value; deleteCrew puts the id in `?crew_id=` |
| CrewsApi.FailureOf | src/lib/crews-api.ts:30-91 | a failure carries the server's non-empty error, and the call's own non-empty fallback message when the parsed body's error is empty or missing; a body that is not JSON gives 'Network error' for getCrews and createCrew, which catch the parse, and a parse error for the others |
| CrewsApi.CreateBody | src/lib/crews-api.ts:39-47 | `JSON.stringify(data)` sends the callsign, and the location and second_member_id with their values exactly when defined |
| CrewsApi.UpdateBody | src/lib/crews-api.ts:56-73 | the update body carries crew_id, the action, and the new status or location under its key |
| CrewsApi.Fallback | src/lib/crews-api.ts:32-90 | each call's fallback error message is non-empty |
| ClientAuth.RegisterRequest | src/lib/auth.ts:18-35 | a POST to the auth URL whose body holds action 'register', the e-mail, password and full name, and each of rank, badge number and department exactly when defined |
| ClientAuth.OptionalFields | src/lib/auth.ts:31-34 | each optional field is set exactly when defined; other keys keep their values |
| ClientAuth.RequiredFields | src/lib/auth.ts:31-34 | the action and the three required fields, and none of the optional ones |
| ClientAuth.Spread | src/lib/auth.ts:33 | one optional field is set when defined; every other key keeps its value |
| ClientAuth.LoginRequest | src/lib/auth.ts:48-59 | a POST to the auth URL whose body holds action 'login', the e-mail (or public id) and the password |
| ClientAuth.SignedInStorage | src/lib/auth.ts:42-44 | after sign-in the storage holds the token under 'auth_token' and the user under 'user', with every other entry kept and no entry added besides these two |
| ClientAuth.Cleared | src/lib/auth.ts:101-104 | both session entries are gone and every other entry is kept |
| ClientAuth.ClearedIdempotent | src/lib/auth.ts:101-104 | logging out twice is logging out once |
| ClientAuth.SignInThenOut | src/lib/auth.ts:42-44 | signing in authenticates exactly when the token is non-empty; signing out afterwards is unauthenticated and leaves the storage as signing out alone would |
| ClientAuth.SessionStore.constructor | src/lib/auth.ts:17 | the store starts with the given storage |
| ClientAuth.SessionStore.Register | src/lib/auth.ts:18-46 | sends the register request; an ok reply stores the token and the user and resolves with them; any other reply throws the server's error or 'Registration failed' and leaves the storage alone |
| ClientAuth.SessionStore.Login | src/lib/auth.ts:48-70 | the same for login, with 'Login failed' |
| ClientAuth.SessionStore.SignIn | src/lib/auth.ts:37-45 | an ok reply stores both entries and resolves; otherwise it throws and the storage is unchanged |
| ClientAuth.SessionStore.Verify | src/lib/auth.ts:72-99 | without a non-empty token nothing is sent, null is returned and the storage is unchanged; otherwise the token is sent as a bearer credential: an ok reply returns the server's user and keeps the storage, a rejected or failed request logs out and returns null |
| ClientAuth.SessionStore.Logout | src/lib/auth.ts:101-104 | the storage loses exactly the two session entries and is no longer authenticated |
| ClientAuth.SessionStore.GetStoredUser | src/lib/auth.ts:106-114 | null when the user entry is missing or empty, otherwise what parsing it gives, null when the parse throws |
| ClientAuth.SessionStore.IsAuthenticated | src/lib/auth.ts:116-118 | true exactly when a non-empty token is stored |
| SettingsPanel.Rank | src/components/SettingsPanel.tsx:88-96 | the rank order behind the role menus: at most 3, and 0 exactly for a role that is none of moderator, admin and manager |
| SettingsPanel.AvailableRoles | src/components/SettingsPanel.tsx:88-96 | a prefix of user, moderator, admin: all three for a manager, two for an admin, only user otherwise; every role after the first ranks strictly below the caller |
| SettingsPanel.NoEscalation | src/components/SettingsPanel.tsx:88-96 | no role offered is 'manager' and none ranks above the caller |
| SettingsPanel.RoleName | src/components/SettingsPanel.tsx:98-105 | each of the four roles gets its own Russian name; any other role shows as Пользователь |
| SettingsPanel.RoleNamesDistinct | src/components/SettingsPanel.tsx:98-105 | different known roles never share a displayed name |
| SettingsPanel.EditDialogRoles | src/components/SettingsPanel.tsx:323-332 | the edit dialog offers 'manager' exactly when the caller is a manager, and everything the caller may assign |
| SettingsPanel.ActivationDialogRoles | src/components/SettingsPanel.tsx:374-381 | the activation dialog never offers 'manager' and offers exactly the roles the caller may assign |
| SettingsPanel.DialogsDifferOnlyForManager | src/components/SettingsPanel.tsx:323-381 | the two dialogs offer the same roles unless the caller is a manager, and then differ only by 'manager' |
| SettingsPanel.ActiveUsers | src/components/SettingsPanel.tsx:165 | every user on the active tab is active |
| SettingsPanel.PendingUsers | src/components/SettingsPanel.tsx:166 | every user on the pending tab is inactive |
| SettingsPanel.TabsPartition | src/components/SettingsPanel.tsx:165-166 | together the two tabs hold every user exactly once: their multisets add up to the list's and their lengths to its length |
| SettingsPanel.TabMembership | src/components/SettingsPanel.tsx:165-166 | a user is on the active tab iff listed and active, on the pending tab iff listed and inactive |
| SettingsPanel.TabsKeepOrder | src/components/SettingsPanel.tsx:165-166 | filtering distributes over concatenation, so each tab keeps the list's order |
| SettingsPanel.ShowsBlockButton | src/components/SettingsPanel.tsx:219 | the block button is hidden on the caller's own row and shown on every row while the caller's id is unknown |
| SettingsPanel.ActivationCalls | src/components/SettingsPanel.tsx:63-86 | activation always sends the activate call first; the role update follows exactly when activation succeeded and the chosen role is not 'user' |
| SettingsPanel.Panel.constructor | src/components/SettingsPanel.tsx:16-26 | the panel starts with no users, loading, role 'user', no id, no dialogs open and an empty edit form |
| SettingsPanel.Panel.LoadUsers | src/components/SettingsPanel.tsx:39-61 | without a token no call is made; otherwise one request for all users, whose reply replaces the list when it arrives; loading ends either way |
| SettingsPanel.Panel.Mount | src/components/SettingsPanel.tsx:28-37 | the mount adopts the stored role and id only when they are truthy, loads the users (the reply replaces the list when a token was present and it arrived), ends loading, and leaves the dialogs and the edit form as they were |
| SettingsPanel.Panel.OpenActivation | src/components/SettingsPanel.tsx:275-278 | the activate button opens the dialog for that user with 'user' preselected; the list, loading, role, id and edit form are unchanged |
| SettingsPanel.Panel.HandleActivate | src/components/SettingsPanel.tsx:63-86 | nothing happens without a chosen user or a token; otherwise the activation calls are sent, and exactly when all went through the dialog closes, the role resets and the list becomes the reload's reply with loading ended; on failure the list and loading are kept; id and edit form are unchanged |
| SettingsPanel.Panel.HandleDeactivate | src/components/SettingsPanel.tsx:107-120 | with a token one deactivation call; exactly when it went through, the list becomes the reload's reply and loading ends, otherwise both are kept; role, id, edit form and activation choice are unchanged |
| SettingsPanel.Panel.HandleDelete | src/components/SettingsPanel.tsx:122-137 | nothing unless confirmed and a token is present; then one delete call; exactly when it went through, the list becomes the reload's reply and loading ends, otherwise both are kept; role, id, edit form and activation choice are unchanged |
| SettingsPanel.Panel.HandleEdit | src/components/SettingsPanel.tsx:139-145 | the edit dialog opens for that user with the form filled from the user's name and role; the list, loading, role, id and activation choice are unchanged |
| SettingsPanel.Panel.HandleSaveEdit | src/components/SettingsPanel.tsx:147-163 | with a user being edited and a token the form is sent as an update; exactly when it went through the dialog closes, the list becomes the reload's reply and loading ends, otherwise list and loading are kept; role, id and form are unchanged |
| Dashboard.SeverityOf | src/pages/Index.tsx:107 | a status change raises an error exactly for 'offline', a warning exactly for 'responding', and information for 'active' and 'patrol' |
| Dashboard.StatusChanged | src/pages/Index.tsx:101-103 | the roster keeps its length; crews with another id are unchanged and crews with the id take the new status and 'только что' |
| Dashboard.Find | src/pages/Index.tsx:104 | a found crew is in the roster and has the id; nothing found means no crew has the id |
| Dashboard.StatusMessage | src/pages/Index.tsx:104-105 | the notice starts with 'Экипаж ' and the crew's call sign ('undefined' for a missing crew) and ends with the status label and a closing quote, the fixed ' изменил статус на '' text right after the call sign |
| Dashboard.CountStatus | src/pages/Index.tsx:407-451 | a status count never exceeds the number of crews |
| Dashboard.CountsSumToTotal | src/pages/Index.tsx:407-451 | the four status counts add up to the number of crews |
| Dashboard.IndexedIdsUnique | src/pages/Index.tsx:84-93 | ids numbered by position never repeat |
| Dashboard.StatusChangeUnknownId | src/pages/Index.tsx:100-103 | a status change for an id no crew has leaves the roster as it was |
| Dashboard.StatusChangeMovesOneCrew | src/pages/Index.tsx:100-103 | with unique ids a status change moves exactly one crew from its old status count to the new one |
| Dashboard.NewCrew | src/pages/Index.tsx:85-92 | the crew added to a roster of n crews has id n+1, call sign 'Г-' followed by 400+n, location 'Новое местоположение', the one officer 'Новый сотрудник', is active and was updated 'только что' |
| Dashboard.Board.constructor | src/pages/Index.tsx:28-59 | the page starts with three crews numbered by position, two notifications and the create dialog closed |
| Dashboard.Board.AddNotification | src/pages/Index.tsx:70-77 | the new notice goes in front of the feed, with the clock value as its id; the roster is untouched |
| Dashboard.Board.CreateCrew | src/pages/Index.tsx:84-98 | one new active crew is appended after the others, the ids stay numbered by position and the dialog closes |
| Dashboard.Board.ChangeStatus | src/pages/Index.tsx:100-112 | the roster becomes the status-changed roster and one notice announcing the change, with the severity of the new status, is pushed in front |
| Dashboard.Board.ClearNotifications | src/pages/Index.tsx:247 | the feed is emptied; the roster and the create dialog flag are kept |

## Left out

- Database connections, cursors and SQL text are not modelled. Each query is modelled by its effect on the abstract tables, so SQL injection through the string-interpolated queries is not captured.
- The `except Exception` paths that answer 500 are left out. The BOLO handler's 500 for a missing `DATABASE_URL` is modelled, with the URL as a parameter.
- `write_log` in the crews and BOLO handlers is left out. It is best-effort I/O whose errors are swallowed.
- `hashlib`, `secrets` and `datetime` are parameters. The hash functions are uninterpreted, the random values are inputs and time is an integer.
- Time zones and the formatting of `created_at`, `expires_at` and `toLocaleString` are not modelled.
- Strings are ASCII. Unicode whitespace in `str.strip`, Unicode case mapping in `str.lower` and `toLowerCase`, and Unicode digits in `str.isdigit` are not modelled.
- Column defaults come from a schema that is not part of this model. A new user is assumed to start as role 'user' and inactive (`AuthHandler.NewUserRole`, `AuthHandler.NewUserActive`).
- A JSON body field of the wrong type (for example a number where a string is expected) raises in Python and gives 500. Body fields are typed in the model, so this path is not covered.
- The users-manage handler puts `user_id` unconverted into f-string SQL (`backend/users-manage/index.py:139-161` and `:193-194`). A non-numeric value fails in the database, answers 500 through the `except` path and is an injection point. The model types the body and query `user_id` as numbers, so that path is not covered.
- Query-string ids (`crew_id` in the crews handler, `id` in the BOLO handler) are strings in Python. The model types them as numbers, `None` when absent or empty: an empty one is falsy and refused with 400, while '0' is truthy and looked up (`CrewsHandler.ZeroQueryIdLookedUp`, `BoloHandler.ZeroQueryIdLookedUp`). A non-numeric id, which fails in the database with 500, is not modelled.
- HTTP transport, `fetch`, JSON serialisation and URL encoding are not modelled. A request is modelled as the URL, method and entries it carries, and a reply is an input.
- Request headers built by `auth.getAuthHeader()` in `src/lib/crews-api.ts` are not modelled. `getToken`, `getAuthHeader` and `deleteSelf` do not exist in `src/lib/auth.ts`.
- In `src/components/SettingsPanel.tsx` the token comes from `getToken`, which does not exist, so the token is a parameter of each handler. The panel passes it to `usersApi` functions whose signatures in `src/lib/users-api.ts` take no token. The panel's call log records it as passed.
- The crew statuses of `src/pages/Index.tsx` (active, patrol, responding, offline) differ from the back end's (available, busy, delay, need_help). Each file is modelled as written.
- `src/lib/users-api.ts` sends email, new_user_id and password in an update. The users-manage handler ignores them, and the model does the same.
- CrewsHandler.Clean, CrewsHandler.CreateCrew, CrewsHandler.UpdateCrew: `backend/crews/index.py:7` imports `sanitize_string` from the crews function's own `security` module, which is not part of this model. The model uses the users-manage `sanitize_string` (which the BOLO one equals, `BoloSecurity.SameAsUsersManage`).
- ClientHttp.ErrorField: a truthy `error` field that is not a string is stringified by `new Error(...)` in the source; the model answers the fallback message for it.
- CrewsApi.GetAvailableUsers: a reply that is not a JSON array is not modelled; each fetch is a success flag and the parsed list.
- `sanitizeHTML` in `src/lib/security.ts` depends on the DOM and is not modelled.
- Toasts, `confirm` dialogs, audio playback, `console` output and rendering are left out. `confirm` is modelled as a boolean input of `SettingsPanel.Panel.HandleDelete`.
- `src/pages/Login.tsx`, `src/pages/PendingActivation.tsx`, `src/App.tsx`, `backend/auth/security_headers.py`, `src/lib/bolo-api.ts` and `src/lib/notifications-api.ts` are not part of this model. They are navigation, route tables, constant headers or plain fetch wrappers.

## Findings

| source | as written | input that shows it | evidently intended | confidence | as-written member | corrected member |
|---|---|---|---|---|---|---|
| backend/users-manage/security.py:34 | `re.match(r'^[a-zA-Z0-9]+$', user_id)`: in Python, `$` also matches before one final newline, so a value ending in a newline passes | `"aaaaaaaaaaaaaaaaaaa\nb"` (19 letters, a newline, a letter) is stripped, cut to 20 characters and accepted as `"aaaaaaaaaaaaaaaaaaa\n"` | only letters and digits are accepted (`\Z` or `re.fullmatch`) | not executed | UsersSecurity.SanitizeUserIdKeepsNewline | UsersSecurity.SanitizeUserIdStrict |
