# Epistolary in Dafny

A model of the decision logic of Epistolary, a reading-list web service: a Go API server
with a small React client. The model covers:

- how a request is authenticated. The access token comes from the bearer header or its
  cookie. When it no longer verifies, the refresh token is used and fresh tokens are
  issued.
- how the claims' permissions gate the reading routes;
- the opaque cursors that page through a user's readings;
- the named-to-positional SQL placeholder rewrite;
- the connection and schema state machines;
- the reading handlers' validation and replies;
- the user and epistle models with their caches;
- how page metadata and favicons are chosen;
- the Sentry settings;
- the version string;
- the web client's stored-login rules.

Everything is pure functions over immutable data. Each source file has its own module,
with a shared `Base` module that holds:

- Go's fixed-width integers;
- the error values;
- `Option` and `Result`;
- `Build`, which picks a function with a defect as written or as corrected. The
  user lookup behind a session refresh, the refusal of a duplicate reading and the
  epistle save statement take it as a parameter, so each lemma says which build it holds for (see "## Findings").

The following are parameters:

- the clock;
- the token manager, as a record of `verify`, `create` and `expiresAt` functions;
- the database's answers (rows, generated IDs, statement errors);
- HTTP responses, as status, headers and the parsed page's elements in document order;
- the environment.

`GoStrings` models the parts of Go's `strings` and `strconv` that the code depends on:

- Unicode white-space trimming;
- lower-casing;
- prefix tests;
- `FormatInt`;
- `ParseInt` with Go's syntax and range errors.

Times are integer nanoseconds since the Unix epoch. Go's zero time is year 1.

## Model

| member | source | states |
|---|---|---|
| Claims.SetSubjectID | pkg/server/tokens/claims.go:19-21 | The subject becomes the user ID in lower-case base 16 with no prefix, and only the subject changes. It starts with '-' exactly for negative IDs, and every other character is 0-9 or a-f. |
| Claims.SubjectID | pkg/server/tokens/claims.go:23-25 | Parsing succeeds exactly when the subject is an optionally signed base-16 numeral whose value fits int64. It then returns that value. |
| Claims.SubjectRoundTrip | pkg/server/tokens/claims.go:19-25 | Every int64 user ID, including 1 and 2^63-1, comes back unchanged and without error from the subject it was written to. |
| Claims.SubjectIDRejects | pkg/server/tokens/claims.go:23-25 | A subject with any character that is not a base-16 digit (other than a leading sign) is rejected. |
| Claims.HasPermission | pkg/server/tokens/claims.go:27-34 | True exactly when the permission occurs in the claims' list. |
| Claims.HasAllPermissions | pkg/server/tokens/claims.go:36-43 | True exactly when every required permission occurs in the list. This is all-of, not any-of, and nothing required means true. |
| Claims.HasAllPermissionsMonotone | pkg/server/tokens/claims.go:36-43 | Granting more permissions never makes a passing all-of check fail. |
| Claims.HasAllPermissionsNeedsEach | pkg/server/tokens/claims.go:36-43 | Removing any one required permission from the claims makes the check fail. |
| Claims.Without | pkg/server/tokens/claims.go:36-43 | The permission list with one permission removed keeps exactly the other permissions. |
| Auth.ParseBearer | pkg/server/auth.go:155 | The token captured from a matching Authorization header is a non-empty run of the token characters A-Z, a-z, 0-9, '_', '-' and '.'. |
| Auth.ParseBearerIsThePattern | pkg/server/auth.go:155 | The parser accepts exactly the headers the bearer pattern matches and returns exactly the capture group. The pattern is optional spaces, "Bearer" or "bearer", at least one space, the token, then optional spaces. |
| Auth.MatchIsUnique | pkg/server/auth.go:155 | Any way of matching the pattern captures the same token, the one the parser returns. |
| Auth.GetAccessToken | pkg/server/auth.go:279-298 | A non-empty Authorization header alone decides: it must hold a bearer token, or the result is the unparsable-header error. Without a header, the access_token cookie is used, and having neither is an error. |
| Auth.GetRefreshToken | pkg/server/auth.go:300-305 | The refresh token comes only from the refresh_token cookie, and is an error when that cookie is absent. |
| Auth.HeaderShadowsCookie | pkg/server/auth.go:279-298 | With a header present, even an unparsable one, the cookies have no influence on the access token. |
| Auth.MaxAge | pkg/server/auth.go:341 | The cookie max age is the whole seconds until expiry, truncated toward zero. It is positive exactly when at least a second remains and negative exactly when the token expired at least a second ago. |
| Auth.SetAuthCookies | pkg/server/auth.go:334-354 | The access cookie is written as soon as the access token's expiry is known, so a bad refresh token leaves it set. Each cookie carries its token and lives until that token expires. All are path "/", the given domain, Secure and HttpOnly. |
| Auth.Logout | pkg/server/auth.go:139-144 | Both token cookies are overwritten with empty values and max age -1, and the reply is 204. |
| Auth.LogoutForgetsTokens | pkg/server/auth.go:139-144 | After a browser applies the logout cookies, a request without a header has no access token and no refresh token. |
| Auth.AuthCookiesCarryTokens | pkg/server/auth.go:334-354 | After a browser applies the cookies, for tokens with a second or more to live, the next request carries exactly the new access and refresh tokens. |
| Auth.UserClaims | pkg/server/auth.go:224-230 | The refreshed claims carry the user record's name, username and email, and a subject that parses back to the user's ID. |
| Auth.RefreshUser | pkg/server/auth.go:202-222 | The user is found only if the refresh cookie exists and verifies, its subject parses as a base-16 ID, and the database has that user. A missing cookie is the no-refresh-token error. As written the lookup by ID never returns a user, so only the corrected build can return one. |
| Auth.RefreshedClaims | pkg/server/auth.go:224-234 | The claims come from the user record. On a working connection the role title is read from the roles table, and a missing role means a nil dereference (no claims). The permissions are those granted to the user. |
| Auth.Reauthenticate | pkg/server/auth.go:199-250 | Success means the refresh cookie named an existing user and the claims were rebuilt from the database. Fresh tokens were then created and exactly those two tokens were set as cookies. No cookie is written unless token creation succeeded, and a missing cookie fails with no cookies. As written it always fails, sets no cookie and never panics. |
| Auth.ReauthClaimsFromDatabase | pkg/server/auth.go:211-234 | Refreshed claims exist only in the corrected build. They name the user the refresh token named, and carry that user's username, role title and granted permissions, read fresh from the database. |
| Auth.Authenticate | pkg/server/auth.go:158-197 | A missing or malformed access token is refused with 401, one recorded error and no cookies, without trying the refresh token. A verifying access token passes with its claims and no cookies. Otherwise the outcome is Reauthenticate's: success passes with the fresh claims and its cookies, failure gives 401 with both errors recorded, and a panic escapes the middleware. |
| Auth.AuthenticateAsWritten | pkg/server/auth.go:172-184 | As written, a request goes on exactly when its access token verifies. Any other request gets 401 and no cookie, whatever its refresh cookie holds, because the user lookup behind the refresh never succeeds. |
| Auth.Authorize | pkg/server/auth.go:252-277 | The request proceeds exactly when the context holds claims of the right type carrying every required permission. Every other case is the same 401 "authorization required". |
| Auth.GetUserClaims | pkg/server/auth.go:307-319 | The context's claims. A missing or nil value and a value of the wrong type give their own errors. |
| Auth.GetUserID | pkg/server/auth.go:321-327 | The claims' subject parsed as an int64, or 0 with the lookup error when the context holds no claims. |
| Auth.RefreshedUserID | pkg/server/auth.go:172-184 | After a refresh the handlers read the refresh token's subject as the user's ID, and that user exists. A refresh happens only in the corrected build. |
| Auth.AuthorizeAfterAuthenticate | pkg/server/auth.go:252-277 | After successful authentication, authorization passes exactly when the claims hold all required permissions. Without authentication it never passes. |
| Server.Install | pkg/server/server.go:285-289 | Only listed handlers are installed, and never more of them than were listed. |
| Server.InstallKeepsAll | pkg/server/server.go:285-289 | Every non-nil middleware entry is installed. |
| Server.InstallAppend | pkg/server/server.go:285-289 | Installing two lists one after the other installs the concatenation. |
| Server.InstallKeepsOrder | pkg/server/server.go:285-289 | Of two listed handlers, the one listed first is installed first. |
| Server.InstalledList | pkg/server/server.go:239-289 | The installed chain is logger, recovery and the Sentry handler, then tags only with Sentry, then tracing only with performance tracking, then CORS and the maintenance check. |
| Server.InstalledMiddleware | pkg/server/server.go:239-289 | Logging is outermost, recovery comes before Sentry and the maintenance check is innermost. Tags are present exactly with Sentry, and tracing exactly with performance tracking, which implies tags. |
| Server.RoutesGuarded | pkg/server/server.go:291-321 | The route table has twelve routes. Every /v1/reading route runs Authenticate, then Authorize with its method's permission, then its endpoint. Every other route runs its endpoint alone. |
| Server.Routes | pkg/server/server.go:291-321 | The route table in registration order: register, login, logout, the five reading routes behind Authenticate and Authorize, the status check and the three well-known documents. |
| Server.RequiredPermission | pkg/server/server.go:303-309 | GET needs epistles:read, POST and PUT need epistles:update, and DELETE needs epistles:delete. |
| Server.ReadingRouteGuarded | pkg/server/server.go:302-309 | A reading route is guarded when its chain is Authenticate, then Authorize with the permission its method demands, then the endpoint. |
| Server.PublicRouteGuarded | pkg/server/server.go:291-321 | A route outside /v1/reading with a lone endpoint meets the guard rule. |
| Server.NotReadingPath | pkg/server/server.go:302 | A path that differs from "/v1/reading" within its length is not a reading path. |
| Server.PublicRoutes | pkg/server/server.go:295-299 | Register, login and logout (POST), the status check and the three well-known documents (GET) are served without authentication. |
| Server.RoutesDistinct | pkg/server/server.go:291-321 | No method and path is registered twice. |
| Server.Dispatch | pkg/server/server.go:291-321 | The route a request reaches has its method and path, and none is found exactly when no route has both. |
| Server.Run | pkg/server/server.go:302-309 | A chain only hands the request to an endpoint that is in the chain. |
| Server.ReadingEndpointNeedsPermission | pkg/server/server.go:302-309 | A reading endpoint runs exactly when authentication passed with claims holding the method's permission. GET needs epistles:read, POST and PUT need epistles:update, DELETE needs epistles:delete. The endpoint then sees those claims. Otherwise the reply is 401, or, when reauthentication panicked, the recovery middleware's 500 with an empty body. |
| Server.GuardedChainRuns | pkg/server/server.go:302-309 | Any guarded reading chain runs its endpoint exactly when authentication passes and the claims hold the method's permission. |
| Server.PublicEndpointAlwaysRuns | pkg/server/server.go:291-321 | A public endpoint runs whatever the credentials. |
| Server.New | pkg/server/server.go:54-113 | An unprocessed configuration is replaced by the environment's, and that load's failure is returned. Outside maintenance mode, token keys are required and the token manager is built; in maintenance mode none exists. Sentry must initialise when enabled. A built server has the installed middleware and the route table. |
| Server.MaintenanceNeedsNoTokens | pkg/server/server.go:85-94 | With Sentry off, maintenance mode builds a server without a token manager, whatever the manager would do. Outside it, no token keys always fails with the no-token-keys error. |
| Sentry.UsePerformanceTracking | pkg/utils/sentry/config.go:28-30 | Tracing is on exactly when a DSN is set and performance tracking is asked for. |
| Sentry.Validate | pkg/utils/sentry/config.go:32-37 | Validation fails, with the environment-required error, exactly when Sentry is on and no environment is named. |
| Sentry.GetRelease | pkg/utils/sentry/config.go:39-45 | The configured release, or the build version when none is configured. |
| Sentry.Options | pkg/utils/sentry/config.go:47-58 | The client options copy DSN, environment, server name, debug and sample rate, and always attach stack traces. The release comes from GetRelease, and tracing is enabled exactly when performance tracking is. |
| Sentry.TracingNeedsEnvironment | pkg/utils/sentry/config.go:28-37 | A configuration that validates and enables tracing has a DSN and an environment. |
| Sentry.UseSentry | pkg/utils/sentry/config.go:23-25 | Sentry is on exactly when a DSN is configured. |
| Version.VersionAsWritten | pkg/version.go:18-32 | As written, a numbered pre-release carries the level twice: core, "-level.N", then "-level" again, then the Git revision. |
| Version.VersionOf | pkg/version.go:18-32 | The intended version: "Major.Minor.Patch", then "-level.N" for a numbered pre-release or "-level" for number 0, then " (git)" when a revision is set. |
| Version.WithGit | pkg/version.go:27-29 | A non-empty Git revision is appended as " (rev)", and an empty one adds nothing. |
| Version.Current | pkg/version.go:6-32 | With the shipped constants, the version is "1.0.0", plus the revision in parentheses, and the as-written formatter agrees. |
| Version.AsWrittenAgreesWithoutNumberedLevel | pkg/version.go:18-32 | Without a release level, or with number 0, the as-written and intended versions coincide. |
| Version.LevelAppendedTwice | pkg/version.go:20-25 | For every numbered pre-release, the as-written version is the intended one followed by "-level". |
| Version.LevelRepeated | pkg/version.go:20-25 | For example 1.0.0 "beta" 1 gives "1.0.0-beta.1-beta" where "1.0.0-beta.1" is meant. |
| WebAuth.StringUsernameNeverAnonymous | web/src/hooks/auth.js:5-12 | No stored user with a string username counts as anonymous, the stored anonymous record included, although a comparison by name would say it is. |
| WebAuth.IsAnonymous | web/src/hooks/auth.js:7-12 | A missing user is anonymous, and so is a user whose username is the ANONYMOUS object itself (an identity comparison) and whose expiry is not positive. |
| WebAuth.IsExpired | web/src/hooks/auth.js:14-21 | A user is expired unless present and the time in milliseconds is before the expiry in seconds times 1000. A missing user counts as expired. |
| WebAuth.SetAuthUser | web/src/hooks/auth.js:27-33 | What is stored is the anonymous record or a user that has not expired. A live user the identity check does not call anonymous is stored as given, and an expired one becomes the anonymous record. |
| WebAuth.ExpiryReset | web/src/hooks/auth.js:35-40 | The effect writes only the anonymous record, and writes exactly when the stored user is not anonymous and has expired. |
| WebAuth.SetAuthUserStoresOnlyLive | web/src/hooks/auth.js:14-33 | Anything stored other than the anonymous record is unexpired at that moment, and a live user with a string username is stored as given. |
| WebAuth.ResetLeavesNoExpiredUser | web/src/hooks/auth.js:35-40 | After the effect, storage holds nothing expired except the anonymous record, and running the effect again changes nothing. |
| WebAuth.AnonymousRewritten | web/src/hooks/auth.js:7-12 | The stored anonymous record is not recognised, so from the epoch on the effect writes it again every time. |
| WebAuth.AnonymityCheckIsMoot | web/src/hooks/auth.js:7-33 | From the epoch on, the identity comparison changes nothing in what setAuthUser stores. A user it fails to call anonymous has a non-positive expiry and so has expired anyway. |
| Pagination.UnixMilli | pkg/utils/pagination/pagination.go:31 | Milliseconds since the epoch, rounded down. |
| Pagination.New | pkg/utils/pagination/pagination.go:22-33 | Start and end are kept. A page size of 0 or above 1000 becomes 20, and any other is kept. The cursor expires twelve hours after now, to the millisecond. |
| Pagination.Expires | pkg/utils/pagination/cursor.go:80-82 | The expiry instant is a whole number of milliseconds since the epoch, exactly the cursor's expiry count. |
| Pagination.HasExpired | pkg/utils/pagination/pagination.go:82-87 | A cursor without expiry gives the missing-expiration error and "not expired". Otherwise it has expired exactly when now is strictly after its expiry. |
| Pagination.IsZero | pkg/utils/pagination/pagination.go:89-91 | True exactly when start, end, size and expiry are all zero. |
| Pagination.PrevPage | pkg/utils/pagination/pagination.go:57-59 | The previous page ends where this one starts and starts one page size earlier, but never below 0. Its size is normalised by New and its expiry refreshed. |
| Pagination.PrevPageWraps | pkg/utils/pagination/pagination.go:57-59 | The start subtraction is int64 arithmetic, so a cursor starting at the int64 minimum gets a previous page starting at the int64 maximum. |
| Pagination.EncodeFixed | pkg/utils/pagination/cursor.go:18-38 | A field's text is a fixed-width base-62 numeral that denotes the field's value. |
| Pagination.DecodeFixed | pkg/utils/pagination/cursor.go:40-60 | A field's value is below the largest value its width can hold. |
| Pagination.EncodeDecode | pkg/utils/pagination/cursor.go:40-60 | Re-encoding a decoded field gives back its text. |
| Pagination.FieldWidthSuffices | pkg/utils/pagination/cursor.go:18-38 | Eleven base-62 digits hold every 64-bit value. |
| Pagination.EncodeInt | pkg/utils/pagination/cursor.go:18-38 | Each int64 field is written as eleven base-62 characters. |
| Pagination.MarshalText | pkg/utils/pagination/cursor.go:62-68 | A token is 44 base-62 characters: start, end, size, then expiry. |
| Pagination.FieldAt | pkg/utils/pagination/cursor.go:40-60 | Decoding field k fails as truncated exactly when the text ends before the field. Otherwise it either decodes that field's slice within the field's range or overflows. |
| Pagination.UnmarshalText | pkg/utils/pagination/cursor.go:70-78 | Text outside the base-62 alphabet is refused before any field is read. Otherwise the fields are read in order, and the first truncation or overflow is reported. Text shorter than one field is truncated, and success needs at least the four fields. |
| Pagination.UnmarshalMarshal | pkg/utils/pagination/cursor.go:62-78 | A token that decodes is, in its first 44 characters, exactly the text of the cursor it decodes to. |
| Pagination.TextRoundTrip | pkg/utils/pagination/cursor.go:62-78 | Every cursor, including all-zero and all-maximum ones, survives encoding and decoding unchanged. |
| Pagination.FieldsDetermineText | pkg/utils/pagination/cursor.go:18-38 | The text of a cursor is the concatenation of its four field texts in gob field order. |
| Pagination.Parse | pkg/utils/pagination/pagination.go:35-55 | Errors are checked in order. A token that does not decode gives the decode error. Then a page size over 1000, a missing expiry and an expired cursor each give their own error. A parsed cursor is what the token decodes to. |
| Pagination.PageToken | pkg/utils/pagination/pagination.go:61-80 | A token is issued exactly for a cursor with size at most 1000, an expiry, and now not past that expiry. Each refusal has its own error, and the token is 44 base-62 characters. |
| Pagination.PageTokenParseRoundTrip | pkg/utils/pagination/pagination.go:35-80 | A token handed out parses back to the same cursor at any time up to the cursor's expiry. |
| Pagination.ExpiryIsMonotone | pkg/utils/pagination/pagination.go:82-87 | Once expired, a cursor stays expired. |
| Pagination.NewCursorUsable | pkg/utils/pagination/pagination.go:22-91 | A fresh cursor is never zero. Its token parses back to it for the twelve hours that follow, less a millisecond. |
| Query.Pairs | pkg/server/db/query.go:14-19 | Every replacement key is non-empty and starts with ":", so plain text is never rewritten. |
| Query.FirstMatch | pkg/server/db/query.go:24 | At a position, the key chosen is the first key in argument order that matches there, and none is chosen only when none matches. |
| Query.Replace | pkg/server/db/query.go:24 | The replacer scans left to right. Where a key matches, the first matching key in argument order is replaced by its value and the scan goes on after the key; elsewhere one character is copied. |
| Query.Values | pkg/server/db/query.go:14-22 | The value list has the arguments' length and order. Named arguments contribute their value, and others pass through. |
| Query.Prep | pkg/server/db/query.go:10-26 | The values are the arguments' values in order. A query without named arguments, or without a colon, is returned unchanged. |
| Query.ReplaceWithoutColon | pkg/server/db/query.go:24 | Text without a colon, or with no keys, is not rewritten. |
| Query.ReplaceCopiesPlainText | pkg/server/db/query.go:24 | A character no key starts with is copied and the rewrite continues after it. |
| Query.ReplaceAtKey | pkg/server/db/query.go:24 | At a position where key k is the first matching key in argument order, the key is consumed whole and replaced by its positional parameter. |
| Query.ReplacePlainPrefix | pkg/server/db/query.go:24 | Colon-free text before the first placeholder is copied unchanged. |
| Query.ReplaceSegment | pkg/server/db/query.go:24 | A colon-free stretch followed by a placeholder becomes the stretch followed by that placeholder's positional parameter. |
| Query.SingleNamedArgument | pkg/server/db/query.go:10-26 | A single named argument turns ":name" into "$1", and its value is passed through. |
| Query.PrefixNameCapturesAny | pkg/server/db/query.go:15-24 | Replacement is non-overlapping and the first key in argument order wins. A name that is a prefix of a later name therefore captures the later placeholder, and the rest of the later name is copied as text. |
| Query.PrefixNameCaptures | pkg/server/db/query.go:15-24 | With "user" given before "userID", ":userID" becomes "$1ID". |
| Db.Connect | pkg/server/db/db.go:32-62 | Only the first connect after start-up or after a Close does anything, and a repeated connect returns no error whatever its configuration. That first connect records read-only mode, has a pool unless the open failed, and succeeds only if open and ping did. |
| Db.Close | pkg/server/db/db.go:65-75 | An open pool is closed and the once-guard re-armed, with the pool's close error returned. Without a pool Close does nothing and returns nil. |
| Db.BeginTx | pkg/server/db/db.go:78-95 | Without a pool the result is not-connected. On a read-only connection, an explicit writable transaction is refused. Nil options inherit the connection's mode and explicit options are honoured, so a read-only connection gives only read-only transactions. |
| Db.ConnectCloseLifecycle | pkg/server/db/db.go:32-95 | Before connecting, a transaction fails and Close is a no-op. After connecting, a second connect with other settings changes nothing. After Close, a connect opens the pool again. |
| Db.ReadOnlyConnection | pkg/server/db/db.go:85-90 | A read-only connection refuses writable transactions and gives a read-only one for nil options. |
| Db.FailedOpenIsSticky | pkg/server/db/db.go:36-75 | A failed open consumes the once-guard without leaving a pool. Close then does not re-arm it, so every later connect is a silent no-op and transactions keep failing. |
| Schema.FindDatabaseDSN | pkg/server/db/schema/schema.go:212-220 | COSMOS_DATABASE_URL is preferred over DATABASE_URL, empty values are skipped, and having neither is the no-database-URL error. |
| Schema.ChooseDSN | pkg/server/db/schema/schema.go:51-64 | No DSN argument means the environment is looked up, one argument is used as given, and more than one is refused. An empty DSN is refused. |
| Schema.Configure | pkg/server/db/schema/schema.go:41-80 | Nothing happens once ready. The DSN errors are returned unchanged. A failed driver wrap clears the driver. Success, exactly when the DSN, driver and migrator all succeed, leaves a ready migrator on that DSN with the embedded source. Readiness implies both exist. |
| Schema.Close | pkg/server/db/schema/schema.go:83-93 | The migrator, the driver and readiness are all forgotten. |
| Schema.ConfigureOnce | pkg/server/db/schema/schema.go:45-48 | Once configured, configuring again changes nothing, whatever DSNs are passed. |
| Schema.CloseThenReconfigure | pkg/server/db/schema/schema.go:83-93 | After Close, the next Configure opens a migrator on its own DSN. |
| Schema.NextVersion | pkg/server/db/schema/schema.go:229-236 | The next embedded version is larger than the given one, and there is none only when no version is larger. |
| Schema.NextInAscending | pkg/server/db/schema/schema.go:229-236 | In an ascending list, the version after the one at i is the one at i + 1. |
| Schema.FindRequiredVersion | pkg/server/db/schema/schema.go:222-240 | Following Next from the first version ends at the last embedded version. With no migrations the result is 0. |
| Schema.RequiredVersion | pkg/server/db/schema/schema.go:222-240 | The required version is an embedded version no smaller than any other. |
| Schema.CurrentVersion | pkg/server/db/schema/schema.go:96-107 | Configures first. A configuration error is returned. Otherwise the result is the required version with the database's version and dirty flag. |
| Schema.Verify | pkg/server/db/schema/schema.go:110-124 | A version mismatch is reported before the dirty flag. Verification succeeds exactly when the versions are equal and the schema is clean. |
| Schema.VerifyReady | pkg/server/db/schema/schema.go:110-124 | A ready package verifies exactly when the database is clean at the newest embedded version, and verification leaves the state alone. |
| Schema.Migrate | pkg/server/db/schema/schema.go:127-154 | Configures, then runs the migrations. Up and down differ only in the direction the migrator takes, which is inside the run's outcome. "No change" counts as success, other run errors are returned, and success leaves the package ready. |
| Schema.MigrateTwice | pkg/server/db/schema/schema.go:127-139 | After a run that left the package ready, a second run that finds nothing to do succeeds on the same migrator. |
| Schema.Wait | pkg/server/db/schema/schema.go:184-210 | Waiting succeeds exactly when some verification before the cancellation succeeds. Otherwise it returns the cancellation error. |
| Epistles.Column | pkg/server/epistles/epistles.go:47-49 | A string column is NULL exactly when the string is empty, and keeps the string. |
| Epistles.SaveInTx | pkg/server/epistles/epistles.go:73-84 | ID 0 is refused before anything else. Otherwise the modification time is stamped. A statement error is wrapped and leaves the rows alone. Success rewrites the row with that ID. |
| Epistles.Save | pkg/server/epistles/epistles.go:55-71 | A failed transaction start is wrapped and changes nothing. As written the statement's `title=%3` never parses, so every save with an ID fails with the wrapped syntax error and the store never changes. Corrected, a commit error is returned as it is, and the store changes exactly when the update and the commit both succeed, and then only the epistle row. |
| Epistles.SaveThenFetch | pkg/server/epistles/epistles.go:55-84 | Corrected, a saved epistle is what the next fetch by its ID returns, with the new modification time. |
| Epistles.SaveAsWrittenIsLost | pkg/server/epistles/epistles.go:55-84 | As written, a save on a working connection reports the syntax error whatever the driver and commit would answer, and the next fetch finds the row unchanged. |
| Epistles.Sync | pkg/server/epistles/epistles.go:29-53 | An empty link is refused before any fetch, and fetch and icon-check errors are returned. Title and description are each NULL when empty, and the favicon is dropped when the check fails. The fields are set before the save, so they stay set when it fails. As written the store is never changed. |
| Epistles.SyncedIffSomeColumn | pkg/server/epistles/epistles.go:25-49 | After a sync the epistle counts as synced exactly when a column is non-NULL, which is always the case when the page had a title. |
| Epistles.IsSynced | pkg/server/epistles/epistles.go:25-27 | An epistle counts as synced once its title, description or favicon is non-empty. |
| Epistles.FetchEpistle | pkg/server/epistles/epistles.go:116-125 | An ID below 1 is refused before the query, and a missing row is "no rows". A fetched epistle has the ID and is in the table. |
| Epistles.GetOrCreateEpistle | pkg/server/epistles/epistles.go:93-110 | An existing epistle for the link is returned unchanged. When the table has no epistle with that link, one is created with the next ID. Driver errors of the lookup, of the insert or of reading back its timestamps are returned and leave the rows unchanged. No-rows is never returned as an error. |
| Epistles.GetOrCreateIdempotent | pkg/server/epistles/epistles.go:93-110 | Asking twice for one link gives the same epistle and creates at most one row. |
| Epistles.Create | pkg/server/epistles/reading.go:44-70 | All steps run in one writable transaction, and any failure leaves the store unchanged. The insert is refused when the user already has a reading of the epistle. As written that refusal is the driver's unique-key error; corrected, it is the already-exists error. Nothing else after the transaction starts is already-exists. On success the epistle is found or created, one reading row is appended, and the reading carries the epistle. |
| Epistles.CreateKeepsReadingsUnique | pkg/server/epistles/reading.go:44-70 | Creating a reading never puts a second reading of the same epistle by the same user into the table. |
| Epistles.FetchReading | pkg/server/epistles/reading.go:175-207 | The user's reading of the epistle, with its row's status and times, joined with the epistle. A missing reading or epistle is "no rows". |
| Epistles.CreateThenFetch | pkg/server/epistles/reading.go:44-207 | A created reading is what the next fetch finds, queued, with the same epistle. |
| Epistles.EpistleOf | pkg/server/epistles/reading.go:244-260 | The cached epistle is returned unless reset is set or none is cached. The cache is filled with a bare epistle before the fetch. |
| Epistles.FailedEpistleFetchIsCached | pkg/server/epistles/reading.go:252-255 | A failed fetch poisons the cache: the next call without reset returns the bare epistle and no error. |
| Epistles.ReadingUser | pkg/server/epistles/reading.go:233-239 | The user loaded for a reading has the profile columns only, with no password, role or permissions. |
| Epistles.UserOf | pkg/server/epistles/reading.go:216-239 | The cached user is returned unless reset is set or none is cached. A lookup returns the user with the reading's user ID. A failed lookup leaves a bare user cached. |
| Epistles.Page | pkg/server/epistles/reading.go:127-157 | The readings are those of the first rows, at most the page size. |
| Epistles.ScanRows | pkg/server/epistles/reading.go:127-157 | The row loop counts every row but keeps only the first size readings, each for the requested user. |
| Epistles.List | pkg/server/epistles/reading.go:78-169 | Size 0 is refused. A missing cursor means the default size of 20. At most size readings are returned, the first rows, each for the requested user. A next cursor exists exactly when more than size rows came back, and runs from the first to the last returned epistle, keeping an allowed page size. |
| Epistles.ListQueryPrepared | pkg/server/epistles/reading.go:93-120 | The query filters by user as $1. The end bound `r.epistle_id < $2` appears only when the cursor has one. The query is ordered by created descending, with the page size plus one as the last parameter. |
| Epistles.ListQuery | pkg/server/epistles/reading.go:93-120 | The list query is the base query, the user filter, the end bound when the cursor has one, the order and the limit, with named arguments rewritten to positional ones. |
| Epistles.ListValues | pkg/server/epistles/reading.go:100-117 | The parameters are the user ID, the end bound when present, and the size plus one. |
| Epistles.PreparedWithEnd | pkg/server/epistles/reading.go:100-120 | With an end bound the three placeholders become $1, $2 and $3. |
| Epistles.PreparedFirstPage | pkg/server/epistles/reading.go:100-120 | Without an end bound the two placeholders become $1 and $2. |
| Epistles.ListReadingSQLColonFree | pkg/server/epistles/reading.go:74 | The base list query holds no placeholder. |
| Users.Load | pkg/server/users/users.go:36-94 | A lookup finds the first matching row. With claims, the password is kept and role and permissions are loaded. Without, the password is blanked and nothing else is loaded. |
| Users.UserFromUsername | pkg/server/users/users.go:36-63 | A found user has that username and exists in the table, with a blank password unless claims were asked for. |
| Users.UserFromEmail | pkg/server/users/users.go:67-94 | A found user has that email and exists in the table, with a blank password unless claims were asked for. |
| Users.UserFromIDAsWritten | pkg/server/users/users.go:97-112 | As written, no user is ever returned, and an existing ID on a working connection fails at the scan. |
| Users.UserFromID | pkg/server/users/users.go:97-112 | Succeeds exactly when the connection works and the ID exists. The result is that row without password, role or permissions. |
| Users.UserFromIDAsWrittenFails | pkg/server/users/users.go:106 | For every ID in the table on a working connection, the lookup as written fails where the intended one succeeds. |
| Users.UpdateRows | pkg/server/users/users.go:164-248 | Exactly the rows with the given ID are rewritten. |
| Users.Create | pkg/server/users/users.go:114-156 | A password that is not a derived key is refused before anything changes. The password-changed time is set, and role IDs below 1 become the default role 2. The insert's error and the timestamp read's error are each returned as they are; the second comes after the struct got its new ID. Success appends the row with the new ID and no last-seen time, while the caller's struct keeps its own. Any failure leaves the table alone. |
| Users.Update | pkg/server/users/users.go:158-181 | An ID below 1 is refused. The statement's error is returned as it is and changes nothing. Success rewrites name, email, username, role and last-seen of the rows with that ID and leaves the rest alone. |
| Users.UpdatePassword | pkg/server/users/users.go:183-217 | The ID is checked before the derived key. The statement's error is returned as it is and changes nothing. Otherwise the password and its changed time are written for that ID. |
| Users.UpdateLastSeen | pkg/server/users/users.go:219-248 | An ID below 1 is refused. The statement's error is returned as it is and changes nothing. Otherwise the last-seen time becomes now for that ID. |
| Users.GetRole | pkg/server/users/users.go:257-281 | The cache is served unless reset is set or empty. A fetch returns the user's role, and a role not found leaves the empty role cached. |
| Users.GetPermissions | pkg/server/users/users.go:290-323 | The cache is served unless reset is set or the list is empty. Otherwise the granted permissions are read from the database. |
| Users.CreateThenFetch | pkg/server/users/users.go:97-156 | A created user is found by its new ID with the fields it was created with, without its password and without a last-seen time, whatever the caller's struct held. |
| Users.UpdateThenFetch | pkg/server/users/users.go:97-181 | An update is visible to the next lookup by ID, and the password is untouched. |
| Users.UpdatePasswordThenLogin | pkg/server/users/users.go:189-217 | A new password is what the next login lookup sees, and a lookup without claims still blanks it. |
| Users.MissingRoleIsCachedEmpty | pkg/server/users/users.go:257-281 | A role that is not found leaves the empty role cached, which the next cached lookup returns without a query. |
| Users.EmptyPermissionsNotCached | pkg/server/users/users.go:290-306 | An empty permission list is never served from the cache, so once the connection is gone asking again fails. |
| Handlers.Item | pkg/server/reading.go:192-202 | The API reading shows the epistle's link, title, description and favicon, and the reading's status and times. |
| Handlers.CurrentPage | pkg/server/reading.go:40-46 | No token means no cursor. Otherwise the parsed cursor, or the parse error. |
| Handlers.ListReadings | pkg/server/reading.go:17-97 | A bind failure is 400, an unknown user 500, and a bad token 400. A 200 lists the page's readings. It has a next token exactly when a next cursor exists, and a prev token exactly when a page token was given. |
| Handlers.ListReadingsSucceeds | pkg/server/reading.go:17-97 | Listing succeeds exactly when the query binds, the user is known, any token parses and the database answers. |
| Handlers.TokensIssue | pkg/server/reading.go:60-75 | The next and previous cursors the handler makes always give tokens. |
| Handlers.CreateReading | pkg/server/reading.go:99-160 | A bind failure is 400. A link that trims to empty is 400, and so is any field besides the link. An unknown user is 500. A store error is 400 when it is already-exists and 500 otherwise. Only a 201 changes the store. |
| Handlers.CreateReadingSucceeds | pkg/server/reading.go:99-160 | A reading is created exactly when the request is a link alone, the user is known and the store creates it. |
| Handlers.CreateReadingReply | pkg/server/reading.go:142-159 | A created reading's reply shows the created reading for the trimmed link, with its epistle as the sync left it. A failed sync is only logged. |
| Handlers.DuplicateReadingAsWritten | pkg/server/reading.go:131-140 | As written, a request for a reading the user already has gets 500 with the driver's unique-key error, and nothing changes. |
| Handlers.DuplicateReadingCorrected | pkg/server/reading.go:131-135 | Corrected, the same request gets 400 with the already-exists error, and nothing changes. |
| Handlers.CreatedReadingNeverSyncedAsWritten | pkg/server/reading.go:142-145 | As written, the handler leaves the store as the create left it: the sync of the new reading's epistle never reaches the database. |
| Handlers.SyncKeepsReadings | pkg/server/epistles/epistles.go:29-84 | A sync rewrites only the synced epistle's rows, which keep their ID and link. |
| Handlers.FetchReading | pkg/server/reading.go:162-205 | An unparsable ID and a missing reading are both 404, and an unknown user is 500. 200 exactly when the store finds the reading, and the reply shows it. |
| Handlers.CreatedReadingIsFetchable | pkg/server/reading.go:99-205 | A reading created through the API is found through the API under the ID the creation reported, with the same link, queued. |
| Handlers.CreateSyncFetch | pkg/server/epistles/reading.go:44-207 | After create and sync, the store returns the queued reading with an epistle of the same ID and link. |
| Handlers.FetchByFormattedID | pkg/server/reading.go:167-190 | For the decimal form of any ID, the handler serves exactly what the store returns. |
| Handlers.UpdateModel | pkg/server/reading.go:255-270 | The update carries the reading's timestamps via ToSQL, and the title and description, each NULL when empty. The link is never updated. |
| Handlers.UpdateAfterUser | pkg/server/reading.go:221-287 | A bind failure is 400 and an unparsable ID is 404. A zero body ID takes the path's, and differing IDs are 400. Title and description are trimmed, and an empty title is 400. The update runs exactly when all of these pass, for this user and ID. A 200 shows the stored status and times. |
| Handlers.UpdateReadingAsWritten | pkg/server/reading.go:207-288 | As written, a user ID that cannot be read is reported with 500, but the handler goes on with ID 0 and writes a second reply. |
| Handlers.UpdateReading | pkg/server/reading.go:207-288 | Stops with 500 when the user ID cannot be read. Otherwise it validates and updates for that user. |
| Handlers.UpdateWithoutUserAsWritten | pkg/server/reading.go:216-219 | Without claims, a valid update request still updates user 0's reading and answers twice. |
| Handlers.UpdateWithoutUser | pkg/server/reading.go:216-219 | With the return in place, that request stops at one reply with no update. With a known user the two versions agree. |
| Handlers.DeleteReading | pkg/server/reading.go:290-292 | Always 501 with no body. |
| Api.MarshalJSON | pkg/api/v1/api.go:119-124 | The zero time is written as null, and any other time with the time codec. |
| Api.UnmarshalJSON | pkg/api/v1/api.go:126-132 | Empty input and null both give the zero time without error. Anything else is read with the time codec. |
| Api.ToSQL | pkg/api/v1/api.go:134-139 | The time is kept and the column is valid exactly when the time is not zero. |
| Api.FromSQL | pkg/server/reading.go:86-90 | A valid column gives its time. |
| Api.JSONRoundTrip | pkg/api/v1/api.go:119-132 | The zero time survives JSON with any codec, and every other time does when the codec reads back what it writes. |
| Api.SQLRoundTrip | pkg/api/v1/api.go:134-139 | Every timestamp survives the trip through a nullable column. A NULL column comes back as the zero time, which is written as null. |
| Fetch.DefaultFavicon | pkg/server/fetch/html.go:122-125 | The default favicon is /favicon.ico on the request's scheme and host, without query or fragment. |
| Fetch.AttrOr | pkg/server/fetch/html.go:103-114 | An attribute's value, or "" when absent. |
| Fetch.Scan | pkg/server/fetch/html.go:102-120 | The scan's value is the starting value or the attribute of one selected element. |
| Fetch.FirstNonEmpty | pkg/server/fetch/html.go:102-120 | The first selected element with a non-empty attribute, and none exactly when there is no such element. |
| Fetch.ScanIsFirstNonEmpty | pkg/server/fetch/html.go:102-120 | The break-on-first-non-empty scans pick the first selected element with a non-empty value, and "" when there is none. |
| Fetch.Title | pkg/server/fetch/html.go:99 | Without title elements the title is empty. |
| Fetch.FetchDocument | pkg/server/fetch/html.go:35-127 | Request and transport errors are returned, and a non-2xx status is an HTTP error with that code. Only gzip, br, compress, deflate and the empty encoding are accepted, and any other is an unknown-encoding error. The description is the first meta description with content. The favicon is the first "icon" or "shortcut icon" link with an href, else /favicon.ico at the root, so it is never empty. |
| Fetch.CheckIcon | pkg/server/fetch/icon.go:28-58 | Request and transport errors are returned with false. Otherwise there is no error, and the icon exists exactly when the status is 2xx and the trimmed, lower-cased content type starts with "image/". |
| Fetch.IsImageType | pkg/server/fetch/icon.go:49-57 | A content type is an image when, trimmed and lower-cased, it starts with "image/". |
| Fetch.ContentTypeNormalised | pkg/server/fetch/icon.go:50-52 | Padding a content type with spaces or lower-casing it does not change the image test. |
| Fetch.ContentTypeCaseInsensitive | pkg/server/fetch/icon.go:49-57 | The icon check gives the same answer for a content type, its lower-case form and the type padded with spaces. |
| Fetch.DefaultFaviconAtRoot | pkg/server/fetch/html.go:112-125 | A page without icon links gets /favicon.ico at the site's root. |
| GoStrings.TrimSpace | pkg/server/reading.go:113 | The result has no Unicode white space at either end. It is empty exactly when the input is all white space, and an input without white space at its ends is returned unchanged. |
| GoStrings.ToLower | pkg/server/fetch/icon.go:51 | Characters are mapped one for one: the upper-case ASCII letters to their lower case, and U+0130 and U+212A to 'i' and 'k'. The result holds no upper-case ASCII letter. |
| GoStrings.FormatInt | pkg/server/tokens/claims.go:20 | A '-' exactly for negatives, then the canonical lower-case digits of the magnitude. |
| GoStrings.ParseIntSpec | pkg/server/reading.go:167 | Parsing succeeds exactly on a well-formed signed numeral whose value fits int64, and returns that value. |
| GoStrings.ParseUintAtSpec | pkg/server/reading.go:167 | The digit loop succeeds exactly when every digit is valid and the value fits 64 bits, and then computes the value. |
| GoStrings.FormatParseRoundTrip | pkg/server/tokens/claims.go:19-25 | Formatting then parsing in the same base gives back every int64. |

## Left out

- Token signing, verification, creation and expiry reading are not modelled. They are the `Tokens` record's functions, because JWT signing is cryptography and the token manager is not part of this model.
- The Login and Register handlers, the JWKS and OpenID discovery documents, and the status handler are out of scope. The routes are named in the table, but only the reading gates are run.
- Fetching over the network, decompression and HTML parsing are left out. A response is given as its status, headers and element list, and a decompressor or parser failure is part of the response.
- The HTTP client of pkg/api/v1 is left out: it is a transport wrapper.
- The server lifecycle (Serve, Shutdown, health, URL) is left out: goroutines, signals and sockets.
- Mutexes and `sync.Once` in db.go and schema.go are left out. The transitions are modelled one after another.
- SQL execution and row scanning are given as parameters: the tables, generated IDs and statement errors.
- The database's reading of the epistle save statement is reduced to its verdict: as written, PostgreSQL's syntax error for `title=%3` (see "## Findings"); corrected, the statement's outcome is a parameter.
- The `epistles.Update` store operation is not part of this model. The update handler takes it as a parameter.
- Gob's byte layout and the base-62 library are left out. Each field is a fixed-width base-62 numeral in gob field order, which keeps the field order, the truncation and overflow errors, and the round trip.
- Pagination.UnmarshalText: returns only the error on failure. It does not model the fields that Go's decoder has already written into the cursor before it fails.
- The clock, `time.Now`, and RFC 3339 time marshalling are parameters.
- Sentry's sample rate is a float. It is passed through as a real and never computed with.
- Sentry hubs, tags, logging and the CLI are side effects without decisions.
- Configuration loading is left out. Only its failure and result are parameters of `Server.New`.
- Role reads in pkg/server/users/roles.go are left out. The roles table is a map.
- The React components, API wrappers and analytics are left out. Only the stored-login rules of the auth hook are modelled.
- Schema Drop and Force are left out: they are direct calls into the migration library.
- Schema.Wait: the polling cadence, sleep and logging are left out. The outcome is modelled from a sequence of verification verdicts and the moment of cancellation.
- Handlers.ListReadings: the bound page size is ignored, as in the handler.
- Epistles.Create: the new reading's status is not read back, so it is "". The table row's status is the database default "queued", which is taken as given.
- Epistles.Create: the source ignores the commit's result. The model's commit always succeeds, so it does not show a failed commit that loses the reading after success was reported.
- Epistles.Create: the reading table is taken to be keyed by epistle and user, so a second insert for the pair is refused. The migrations are not part of this model.
- Auth.MaxAge: Go converts the duration to float64 seconds before truncating. When the expiry is 2^24 seconds (about 194 days) or more away, that conversion can round up to the next whole second. The model truncates the exact nanosecond count, which agrees only below that bound.
- GoStrings.ToLower: maps only the ASCII capitals, U+0130 and U+212A, and leaves every other character as it is. These are the only characters whose lower case is an ASCII letter, so the "image/" prefix test comes out exactly as in Go.
- Users.Create: the source ignores the commit's result (pkg/server/users/users.go:154). The model's commit always succeeds, so it does not show a failed commit that loses the user after success was reported.
- Users.Create: the schema's constraints (a unique username or email, say) are not part of this model. A violation is one of the insert's errors, which are a parameter.
- Users.Update: the source ignores the commit's result (pkg/server/users/users.go:179). The model's commit always succeeds.
- Users.UpdatePassword: the source ignores the commit's result (pkg/server/users/users.go:215). The model's commit always succeeds.
- Users.UpdateLastSeen: the source ignores the commit's result (pkg/server/users/users.go:246). The model's commit always succeeds.
- Server.Run: a panic is modelled only as the empty 500 reply the recovery middleware writes. The logging and Sentry reporting of the panic are left out.

## Findings

| source | as written | input that shows it | evidently intended | confidence | as-written member | corrected member |
|---|---|---|---|---|---|---|
| pkg/server/users/users.go:106 | the row is scanned into the struct's fields by value, not by address, so `Reauthenticate` can never refresh a session | any ID present in the users table, on a working connection; through `Authenticate`, an expired access token with a valid refresh cookie for an existing user gets 401 | return that user without password, role or permissions, and refresh the session | not executed; `database/sql` refuses non-pointer scan destinations | Users.UserFromIDAsWritten (Users.UserFromIDAsWrittenFails, Auth.AuthenticateAsWritten) | Users.UserFromID (Auth.ReauthClaimsFromDatabase, Auth.RefreshedUserID) |
| pkg/server/epistles/reading.go:59-61 | the insert's error is returned as the driver reports it, so `ErrAlreadyExists`, which the handler tests for at pkg/server/reading.go:132, is never returned and the handler's 400 branch is dead | a POST of a link the user already has a reading for: the reply is 500 | refuse the duplicate with `ErrAlreadyExists`, so the reply is 400 | not executed; medium, since it rests on the reading table's key on epistle and user | Epistles.Create (Handlers.DuplicateReadingAsWritten) | Epistles.Create (Handlers.DuplicateReadingCorrected) |
| pkg/server/epistles/epistles.go:56 | the save statement has `title=%3` where `$3` is meant; PostgreSQL lexes `=%` as one operator, so the statement never parses, every save fails and the sync after a created reading is only logged | any save of an epistle with an ID on a working connection, such as the sync that follows a POST of a new link | `title=$3`, so a save writes the row | not executed; high, since the driver (lib/pq, imported at pkg/server/db/db.go:12) passes the text to PostgreSQL unchanged | Epistles.Save with the as-written build (Epistles.SaveAsWrittenIsLost, Handlers.CreatedReadingNeverSyncedAsWritten) | Epistles.Save with the corrected build (Epistles.SaveThenFetch) |
| pkg/version.go:20-25 | the release level is appended again after "-level.N" | level "beta", number 1 gives "1.0.0-beta.1-beta" | "1.0.0-beta.1" | not executed; high | Version.VersionAsWritten (Version.LevelRepeated, Version.LevelAppendedTwice) | Version.VersionOf |
| pkg/server/reading.go:216-219 | no return after the user-ID failure is reported | no claims in the context, a body with ID 0 and a title, a numeric reading ID: the update runs for user 0 and two replies are written | stop after the 500 reply | not executed; high | Handlers.UpdateReadingAsWritten (Handlers.UpdateWithoutUserAsWritten) | Handlers.UpdateReading (Handlers.UpdateWithoutUser) |
