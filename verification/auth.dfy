/** Authentication and authorization of pkg/server/auth.go: extracting the bearer token,
    the `Authenticate` middleware with its fall-back to the refresh token, the
    `Authorize` middleware, the claims helpers, and the cookies set at login, refresh and
    logout.

    The token manager (signature checks, token creation, reading a token's expiry) is a
    `Tokens` record of functions; the clock is `now`. A browser applying the cookies is
    modelled only as far as needed to state what they do: a negative max age deletes a
    cookie, any other max age stores it. */
module Auth {
  import opened Base
  import opened Claims
  import GoStrings
  import Users

  const AccessTokenCookie := "access_token"
  const RefreshTokenCookie := "refresh_token"
  const StatusNoContent := 204
  const StatusUnauthorized := 401

  /** The parts of a request the middleware reads: the Authorization header ("" when
      absent) and the cookies, already unescaped. */
  datatype Request = Request(authorization: string, cookies: map<string, string>)

  /** A `Set-Cookie` written by gin's `SetCookie`. */
  datatype Cookie = Cookie(
    name: string, value: string, maxAge: int, path: string, domain: string, secure: bool, httpOnly: bool)

  datatype Tokens = Tokens(
    verify: string -> Result<Claims>,
    create: Claims -> Result<(string, string)>,
    expiresAt: string -> Result<Time>)

  // ---------------------------------------------------------------------------------
  // The bearer pattern ^\s*[Bb]earer\s+([a-zA-Z0-9_\-\.]+)\s*$

  /** RE2's `\s`: tab, newline, form feed, carriage return and space. */
  predicate ReSpace(c: char) {
    c == '\t' || c == '\n' || c == '\U{0C}' || c == '\r' || c == ' '
  }

  predicate TokenChar(c: char) {
    'a' <= c <= 'z' || 'A' <= c <= 'Z' || '0' <= c <= '9' || c == '_' || c == '-' || c == '.'
  }

  /** The header matches the pattern with the leading spaces ending at `i`, the keyword at
      `i..i+6`, the separating spaces ending at `j` and the captured token at `j..k`. */
  predicate BearerMatch(h: string, i: nat, j: nat, k: nat) {
    && i + 6 < j < k <= |h|
    && (forall n :: 0 <= n < i ==> ReSpace(h[n]))
    && (h[i] == 'B' || h[i] == 'b') && h[i + 1..i + 6] == "earer"
    && (forall n :: i + 6 <= n < j ==> ReSpace(h[n]))
    && (forall n :: j <= n < k ==> TokenChar(h[n]))
    && (forall n :: k <= n < |h| ==> ReSpace(h[n]))
  }

  function SkipSpace(h: string, i: nat): (r: nat)
    requires i <= |h|
    ensures i <= r <= |h|
    ensures forall n :: i <= n < r ==> ReSpace(h[n])
    ensures r < |h| ==> !ReSpace(h[r])
    decreases |h| - i
  {
    if i < |h| && ReSpace(h[i]) then SkipSpace(h, i + 1) else i
  }

  function SkipToken(h: string, i: nat): (r: nat)
    requires i <= |h|
    ensures i <= r <= |h|
    ensures forall n :: i <= n < r ==> TokenChar(h[n])
    ensures r < |h| ==> !TokenChar(h[r])
    decreases |h| - i
  {
    if i < |h| && TokenChar(h[i]) then SkipToken(h, i + 1) else i
  }

  /** `bearer.FindStringSubmatch(header)`: the captured token, if the header matches. */
  function ParseBearer(h: string): (r: Option<string>)
    ensures r.Some? ==> |r.value| > 0 && forall n :: 0 <= n < |r.value| ==> TokenChar(r.value[n])
  {
    var i := SkipSpace(h, 0);
    if i + 6 <= |h| && (h[i] == 'B' || h[i] == 'b') && h[i + 1..i + 6] == "earer" then
      var j := SkipSpace(h, i + 6);
      var k := SkipToken(h, j);
      if j == i + 6 || k == j || SkipSpace(h, k) != |h| then None
      else Some(h[j..k])
    else None
  }

  /** The parser accepts exactly the headers the pattern matches and captures what the
      pattern captures; since spaces and token characters are disjoint the capture is
      unique. */
  lemma ParseBearerIsThePattern(h: string)
    ensures ParseBearer(h).Some? <==> exists i: nat, j: nat, k: nat :: BearerMatch(h, i, j, k)
    ensures forall i: nat, j: nat, k: nat :: BearerMatch(h, i, j, k) ==> ParseBearer(h) == Some(h[j..k])
  {
    var i := SkipSpace(h, 0);
    if ParseBearer(h).Some? {
      var j := SkipSpace(h, i + 6);
      var k := SkipToken(h, j);
      assert BearerMatch(h, i, j, k);
    }
    forall i': nat, j': nat, k': nat | BearerMatch(h, i', j', k')
      ensures ParseBearer(h) == Some(h[j'..k'])
    {
      MatchIsUnique(h, i', j', k');
    }
  }

  lemma MatchIsUnique(h: string, i: nat, j: nat, k: nat)
    requires BearerMatch(h, i, j, k)
    ensures ParseBearer(h) == Some(h[j..k])
  {
    SpacesEndAt(h, 0, i);
    assert h[i..i + 6][1..] == h[i + 1..i + 6];
    SpacesEndAt(h, i + 6, j);
    TokenEndsAt(h, j, k);
    SpacesEndAt(h, k, |h|);
  }

  /** Skipping spaces from `from` stops at the first non-space. */
  lemma SpacesEndAt(h: string, from: nat, to: nat)
    requires from <= to <= |h|
    requires forall n :: from <= n < to ==> ReSpace(h[n])
    requires to < |h| ==> !ReSpace(h[to])
    ensures SkipSpace(h, from) == to
  {
  }

  /** Skipping token characters from `from` stops at the first other character. */
  lemma TokenEndsAt(h: string, from: nat, to: nat)
    requires from <= to <= |h|
    requires forall n :: from <= n < to ==> TokenChar(h[n])
    requires to < |h| ==> !TokenChar(h[to])
    ensures SkipToken(h, from) == to
  {
  }

  // ---------------------------------------------------------------------------------
  // Token extraction

  /** `GetAccessToken`: a non-empty Authorization header decides alone, and must hold a
      bearer token; without one, the access-token cookie is used. */
  function GetAccessToken(req: Request): (r: Result<string>)
    ensures req.authorization != "" ==> (r.Ok? <==> ParseBearer(req.authorization).Some?)
    ensures req.authorization != "" && r.Ok? ==> r.value == ParseBearer(req.authorization).value
    ensures req.authorization != "" && r.Err? ==> r.error == BearerUnparsable
    ensures req.authorization == "" ==> (r.Ok? <==> AccessTokenCookie in req.cookies)
    ensures req.authorization == "" && r.Ok? ==> r.value == req.cookies[AccessTokenCookie]
    ensures req.authorization == "" && r.Err? ==> r.error == NoAccessToken
  {
    if req.authorization != "" then
      match ParseBearer(req.authorization)
      case Some(t) => Ok(t)
      case None => Err(BearerUnparsable)
    else if AccessTokenCookie in req.cookies then Ok(req.cookies[AccessTokenCookie])
    else Err(NoAccessToken)
  }

  /** `GetRefreshToken`: only the refresh-token cookie is consulted. */
  function GetRefreshToken(req: Request): (r: Result<string>)
    ensures r.Ok? <==> RefreshTokenCookie in req.cookies
    ensures r.Ok? ==> r.value == req.cookies[RefreshTokenCookie]
    ensures r.Err? ==> r.error == NoRefreshToken
  {
    if RefreshTokenCookie in req.cookies then Ok(req.cookies[RefreshTokenCookie]) else Err(NoRefreshToken)
  }

  /** A header, even one that does not parse, hides the access-token cookie. */
  lemma HeaderShadowsCookie(req: Request, cookies: map<string, string>)
    requires req.authorization != ""
    ensures GetAccessToken(req) == GetAccessToken(req.(cookies := cookies))
  {
  }

  // ---------------------------------------------------------------------------------
  // Cookies

  /** `int(time.Until(exp).Seconds())`: the whole seconds left, truncated toward zero,
      of the duration clamped to int64 nanoseconds. */
  function MaxAge(exp: Time, now: Time): (r: int)
    ensures MinInt64 <= exp - now <= MaxInt64 && exp >= now ==> r * Second <= exp - now < (r + 1) * Second
    ensures MinInt64 <= exp - now <= MaxInt64 && exp < now ==> (r - 1) * Second < exp - now <= r * Second
    ensures r > 0 <==> exp - now >= Second
    ensures r < 0 <==> exp - now <= -Second
  {
    Quo(Saturate64(exp - now), Second)
  }

  function AuthCookie(name: string, value: string, maxAge: int, domain: string): Cookie {
    Cookie(name, value, maxAge, "/", domain, true, true)
  }

  /** `SetAuthCookies`: the access cookie is written as soon as the access token's expiry
      is known, before the refresh token's expiry is read, so a bad refresh token leaves
      the access cookie set. Each cookie lives as long as its token. */
  function SetAuthCookies(tk: Tokens, access: string, refresh: string, domain: string, now: Time): (r: (seq<Cookie>, Outcome))
    ensures r.1.None? <==> tk.expiresAt(access).Ok? && tk.expiresAt(refresh).Ok?
    ensures tk.expiresAt(access).Err? ==> r == ([], Some(tk.expiresAt(access).error))
    ensures tk.expiresAt(access).Ok? ==> (|r.0| >= 1 &&
      r.0[0] == AuthCookie(AccessTokenCookie, access, MaxAge(tk.expiresAt(access).value, now), domain))
    ensures tk.expiresAt(access).Ok? && tk.expiresAt(refresh).Err? ==> |r.0| == 1 && r.1 == Some(tk.expiresAt(refresh).error)
    ensures r.1.None? ==> (|r.0| == 2 &&
      r.0[1] == AuthCookie(RefreshTokenCookie, refresh, MaxAge(tk.expiresAt(refresh).value, now), domain))
    ensures forall c :: c in r.0 ==> c.path == "/" && c.domain == domain && c.secure && c.httpOnly
  {
    match tk.expiresAt(access)
    case Err(e) => ([], Some(e))
    case Ok(accessExp) =>
      var ac := AuthCookie(AccessTokenCookie, access, MaxAge(accessExp, now), domain);
      match tk.expiresAt(refresh)
      case Err(e) => ([ac], Some(e))
      case Ok(refreshExp) => ([ac, AuthCookie(RefreshTokenCookie, refresh, MaxAge(refreshExp, now), domain)], None)
  }

  /** `Logout`: both token cookies are overwritten with empty, already expired values, and
      the response is 204 No Content. */
  function Logout(domain: string): (r: (seq<Cookie>, int))
    ensures r.1 == StatusNoContent && |r.0| == 2
    ensures r.0[0].name == AccessTokenCookie && r.0[1].name == RefreshTokenCookie
    ensures forall c :: c in r.0 ==> c.value == "" && c.maxAge == -1 && c.path == "/" && c.domain == domain && c.secure && c.httpOnly
  {
    ([AuthCookie(AccessTokenCookie, "", -1, domain), AuthCookie(RefreshTokenCookie, "", -1, domain)], StatusNoContent)
  }

  /** A browser applying `Set-Cookie` headers in order (RFC 6265, section 5.3): a negative
      max age removes the cookie, any other stores it. */
  function Apply(jar: map<string, string>, cookies: seq<Cookie>): (r: map<string, string>)
    decreases |cookies|
  {
    if |cookies| == 0 then jar
    else
      var c := cookies[0];
      Apply(if c.maxAge < 0 then jar - {c.name} else jar[c.name := c.value], cookies[1..])
  }

  /** After logout the browser holds neither token, so the next request without a header
      is refused for want of a token and cannot be refreshed. */
  lemma LogoutForgetsTokens(jar: map<string, string>, domain: string)
    ensures var after := Apply(jar, Logout(domain).0);
      && GetAccessToken(Request("", after)) == Err(NoAccessToken)
      && GetRefreshToken(Request("", after)) == Err(NoRefreshToken)
  {
    var cs := Logout(domain).0;
    var j1 := jar - {AccessTokenCookie};
    var j2 := j1 - {RefreshTokenCookie};
    assert Apply(jar, cs) == Apply(j1, cs[1..]);
    assert Apply(j1, cs[1..]) == Apply(j2, cs[2..]);
  }

  /** Cookies set for tokens with at least a second to live carry the tokens on the next
      request: a request without a header uses the new access token, and the refresh
      token is there for the next refresh. */
  lemma AuthCookiesCarryTokens(tk: Tokens, access: string, refresh: string, domain: string, now: Time, jar: map<string, string>)
    requires SetAuthCookies(tk, access, refresh, domain, now).1.None?
    requires tk.expiresAt(access).value - now >= Second && tk.expiresAt(refresh).value - now >= Second
    ensures var after := Apply(jar, SetAuthCookies(tk, access, refresh, domain, now).0);
      && GetAccessToken(Request("", after)) == Ok(access)
      && GetRefreshToken(Request("", after)) == Ok(refresh)
  {
    var cs := SetAuthCookies(tk, access, refresh, domain, now).0;
    var j1 := jar[AccessTokenCookie := access];
    var j2 := j1[RefreshTokenCookie := refresh];
    assert Apply(jar, cs) == Apply(j1, cs[1..]);
    assert Apply(j1, cs[1..]) == Apply(j2, cs[2..]);
  }

  // ---------------------------------------------------------------------------------
  // Reauthentication

  datatype Reauth = Reauthed(claims: Claims) | ReauthFailed(err: Error) | ReauthPanicked

  /** The claims `Reauthenticate` issues for a user, before role and permissions. */
  function UserClaims(user: Users.User): (r: Claims)
    ensures r.name == (if user.row.fullName.Some? then user.row.fullName.value else "")
    ensures r.username == user.row.username && r.email == user.row.email
    ensures r.role == "" && r.permissions == []
    ensures SubjectID(r) == GoStrings.IntParse(user.row.id, None)
  {
    var c := Claims(
      "", if user.row.fullName.Some? then user.row.fullName.value else "",
      user.row.username, user.row.email, "", []);
    var r := SetSubjectID(c, user.row.id);
    SubjectRoundTrip(c, user.row.id);
    r
  }

  /** The first half of `Reauthenticate`: the user the refresh cookie names, if the
      cookie is there, verifies, holds a base-16 subject and that user exists. The user
      is read with `UserFromID` of build `b`; as written that read always fails, and so
      does every refresh. */
  function RefreshUser(b: Build, req: Request, tk: Tokens, db: Users.Database): (r: Result<Users.User>)
    ensures GetRefreshToken(req).Err? ==> r == Err(NoRefreshToken)
    ensures b.AsWritten? ==> r.Err?
    ensures r.Ok? ==> GetRefreshToken(req).Ok? && tk.verify(GetRefreshToken(req).value).Ok?
    ensures r.Ok? ==> var uid := SubjectID(tk.verify(GetRefreshToken(req).value).value);
      && uid.err.None? && b.Corrected? && r == Users.UserFromID(db, uid.value)
  {
    var refresh :- GetRefreshToken(req);
    var refreshClaims :- tk.verify(refresh);
    var uid := SubjectID(refreshClaims);
    if uid.err.Some? then Err(uid.err.value) else Users.UserFromIDIn(b, db, uid.value)
  }

  /** The claims `Reauthenticate` issues for a user just read by ID: the profile, the
      role's title and the granted permissions. The role lookup's error is ignored and the
      nil role dereferenced, which panics (`None`); a permission lookup error leaves the
      claims without permissions. */
  function RefreshedClaims(user: Users.User, db: Users.Database): (r: Option<Claims>)
    ensures r.Some? ==> SubjectID(r.value) == GoStrings.IntParse(user.row.id, None)
    ensures r.Some? ==> r.value.username == user.row.username && r.value.email == user.row.email
    ensures user.role.None? && Users.Begin(db, true).None? ==>
      (r.Some? <==> user.row.roleID in db.roles)
    ensures user.role.None? && |user.permissions| == 0 && Users.Begin(db, true).None? && r.Some? ==>
      r.value.role == db.roles[user.row.roleID].title && r.value.permissions == Users.GrantsOf(db, user.row.id)
  {
    var (user2, role) := Users.GetRole(user, db, false);
    if role.Err? then None
    else
      var (_, perms) := Users.GetPermissions(user2, db, false);
      var claims := UserClaims(user).(role := role.value.title,
        permissions := if perms.Ok? then perms.value else []);
      assert SubjectID(claims) == SubjectID(UserClaims(user));
      Some(claims)
  }

  /** `Reauthenticate`: the refresh cookie must verify and name a user that exists; the
      new claims carry that user's profile, role title and permissions and fresh tokens
      are issued and set as cookies. As written (`b` is `AsWritten`) it always fails
      without setting a cookie, and never panics. */
  function Reauthenticate(b: Build, req: Request, tk: Tokens, db: Users.Database, domain: string, now: Time): (r: (Reauth, seq<Cookie>))
    ensures r.0.Reauthed? ==>
      (RefreshUser(b, req, tk, db).Ok? && RefreshedClaims(RefreshUser(b, req, tk, db).value, db) == Some(r.0.claims))
    ensures r.0.Reauthed? ==> (tk.create(r.0.claims).Ok? && |r.1| == 2 &&
      r.1[0].name == AccessTokenCookie && r.1[0].value == tk.create(r.0.claims).value.0 &&
      r.1[1].name == RefreshTokenCookie && r.1[1].value == tk.create(r.0.claims).value.1)
    ensures GetRefreshToken(req).Err? ==> r == (ReauthFailed(NoRefreshToken), [])
    ensures !r.0.Reauthed? ==> |r.1| <= 1
    ensures b.AsWritten? ==> r.0.ReauthFailed? && r.1 == []
    ensures r.1 != [] ==>
      && RefreshUser(b, req, tk, db).Ok?
      && RefreshedClaims(RefreshUser(b, req, tk, db).value, db).Some?
      && tk.create(RefreshedClaims(RefreshUser(b, req, tk, db).value, db).value).Ok?
  {
    match RefreshUser(b, req, tk, db)
    case Err(e) => (ReauthFailed(e), [])
    case Ok(user) =>
      match RefreshedClaims(user, db)
      case None => (ReauthPanicked, [])
      case Some(claims) =>
        match tk.create(claims)
        case Err(e) => (ReauthFailed(e), [])
        case Ok((access, refresh2)) =>
          var (cookies, err) := SetAuthCookies(tk, access, refresh2, domain, now);
          if err.Some? then (ReauthFailed(err.value), cookies)
          else (Reauthed(claims), cookies)
  }

  /** The refreshed claims name the user the refresh token named, and carry that user's
      role title and the permissions granted to the user, read fresh from the database.
      This happens only in the corrected build. */
  lemma ReauthClaimsFromDatabase(b: Build, req: Request, tk: Tokens, db: Users.Database, domain: string, now: Time)
    requires Reauthenticate(b, req, tk, db, domain, now).0.Reauthed?
    ensures var c := Reauthenticate(b, req, tk, db, domain, now).0.claims;
      var uid := SubjectID(tk.verify(GetRefreshToken(req).value).value);
      && b.Corrected?
      && uid.err.None? && SubjectID(c) == uid
      && Users.UserFromID(db, uid.value).Ok?
      && var row := Users.UserFromID(db, uid.value).value.row;
      && c.username == row.username
      && row.roleID in db.roles && c.role == db.roles[row.roleID].title
      && c.permissions == Users.GrantsOf(db, uid.value)
  {
    var user := RefreshUser(b, req, tk, db).value;
    assert user.role.None? && user.permissions == [] && Users.Begin(db, true).None?;
  }

  // ---------------------------------------------------------------------------------
  // Middleware

  /** What `c.Get(UserClaims)` finds on the request context. */
  datatype ContextValue = Missing | NilValue | WrongType | ClaimsPtr(claims: Claims)

  /** `Crash` is a panic out of the middleware. */
  datatype AuthOutcome = Proceed(claims: Claims) | Abort(status: int, message: string) | Crash

  /** The middleware's effect: how the chain continues, the cookies written and the errors
      attached to the context with `c.Error`. */
  datatype AuthResult = AuthResult(outcome: AuthOutcome, cookies: seq<Cookie>, errors: seq<Error>)

  /** `Authenticate`: a valid access token lets the request through unchanged; an access
      token that does not verify is replaced through the refresh token; otherwise the
      request is aborted with 401. `b` is the build of the user lookup behind the
      refresh. */
  function Authenticate(b: Build, req: Request, tk: Tokens, db: Users.Database, domain: string, now: Time): (r: AuthResult)
    ensures GetAccessToken(req).Err? ==>
      r == AuthResult(Abort(StatusUnauthorized, "authentication required"), [], [GetAccessToken(req).error])
    ensures GetAccessToken(req).Ok? && tk.verify(GetAccessToken(req).value).Ok? ==>
      r == AuthResult(Proceed(tk.verify(GetAccessToken(req).value).value), [], [])
    ensures r.outcome.Abort? ==> r.outcome.status == StatusUnauthorized
    ensures r.outcome.Proceed? && r.cookies != [] ==>
      GetAccessToken(req).Ok? && tk.verify(GetAccessToken(req).value).Err? &&
      Reauthenticate(b, req, tk, db, domain, now).0 == Reauthed(r.outcome.claims)
    ensures GetAccessToken(req).Ok? && tk.verify(GetAccessToken(req).value).Err? ==>
      (var (re, cookies) := Reauthenticate(b, req, tk, db, domain, now);
       && r.cookies == cookies
       && (re.Reauthed? ==> r.outcome == Proceed(re.claims) && r.errors == [])
       && (re.ReauthFailed? ==>
             r.outcome == Abort(StatusUnauthorized, "authentication required")
             && r.errors == [tk.verify(GetAccessToken(req).value).error, re.err])
       && (re.ReauthPanicked? ==> r.outcome == Crash))
  {
    match GetAccessToken(req)
    case Err(e) => AuthResult(Abort(StatusUnauthorized, "authentication required"), [], [e])
    case Ok(ats) =>
      match tk.verify(ats)
      case Ok(claims) => AuthResult(Proceed(claims), [], [])
      case Err(e) =>
        var (re, cookies) := Reauthenticate(b, req, tk, db, domain, now);
        match re
        case Reauthed(claims) => AuthResult(Proceed(claims), cookies, [])
        case ReauthFailed(e2) => AuthResult(Abort(StatusUnauthorized, "authentication required"), cookies, [e, e2])
        case ReauthPanicked => AuthResult(Crash, cookies, [])
  }

  /** The context value `Authenticate` leaves for the handlers. */
  function ContextAfter(r: AuthResult): ContextValue {
    if r.outcome.Proceed? then ClaimsPtr(r.outcome.claims) else Missing
  }

  datatype Decision = Next | Deny(status: int, message: string)

  /** `Authorize(permissions...)`: the request goes on only when the context holds claims
      of the right type that carry every required permission. */
  function Authorize(ctx: ContextValue, required: seq<string>): (r: Decision)
    ensures r == Next <==> ctx.ClaimsPtr? && forall i :: 0 <= i < |required| ==> required[i] in ctx.claims.permissions
    ensures r != Next ==> r == Deny(StatusUnauthorized, "authorization required")
  {
    if !ctx.ClaimsPtr? then Deny(StatusUnauthorized, "authorization required")
    else if !HasAllPermissions(ctx.claims, required) then Deny(StatusUnauthorized, "authorization required")
    else Next
  }

  /** `GetUserClaims`. */
  function GetUserClaims(ctx: ContextValue): (r: Result<Claims>)
    ensures r.Ok? <==> ctx.ClaimsPtr?
    ensures r.Ok? ==> r.value == ctx.claims
    ensures ctx.Missing? || ctx.NilValue? ==> r == Err(NoUserClaims)
    ensures ctx.WrongType? ==> r == Err(WrongClaimsType)
  {
    match ctx
    case Missing => Err(NoUserClaims)
    case NilValue => Err(NoUserClaims)
    case WrongType => Err(WrongClaimsType)
    case ClaimsPtr(c) => Ok(c)
  }

  /** `GetUserID`: the subject of the context's claims as an int64, or 0 with the lookup
      error when the context holds no claims. */
  function GetUserID(ctx: ContextValue): (r: GoStrings.IntParse)
    ensures !ctx.ClaimsPtr? ==> r.value == 0 && r.err == Some(GetUserClaims(ctx).error)
    ensures ctx.ClaimsPtr? ==> r == SubjectID(ctx.claims)
  {
    match GetUserClaims(ctx)
    case Err(e) => GoStrings.IntParse(0, Some(e))
    case Ok(c) => SubjectID(c)
  }

  /** After a refresh the handlers see the user the refresh token named: the ID they read
      from the context is that user's ID. Only the corrected build gets this far. */
  lemma RefreshedUserID(b: Build, req: Request, tk: Tokens, db: Users.Database, domain: string, now: Time)
    requires GetAccessToken(req).Ok? && tk.verify(GetAccessToken(req).value).Err?
    requires Authenticate(b, req, tk, db, domain, now).outcome.Proceed?
    ensures var refreshClaims := tk.verify(GetRefreshToken(req).value).value;
      && b.Corrected?
      && GetUserID(ContextAfter(Authenticate(b, req, tk, db, domain, now))) == SubjectID(refreshClaims)
      && SubjectID(refreshClaims).err.None?
      && Users.UserFromID(db, SubjectID(refreshClaims).value).Ok?
  {
    var re := Reauthenticate(b, req, tk, db, domain, now).0;
    assert re.Reauthed? && Authenticate(b, req, tk, db, domain, now).outcome == Proceed(re.claims);
    ReauthClaimsFromDatabase(b, req, tk, db, domain, now);
  }

  /** As written, an access token that does not verify always ends in 401, whatever the
      refresh cookie holds: the request goes on exactly when its access token verifies,
      and no cookie is ever set. */
  lemma AuthenticateAsWritten(req: Request, tk: Tokens, db: Users.Database, domain: string, now: Time)
    ensures var r := Authenticate(AsWritten, req, tk, db, domain, now);
      && (r.outcome.Proceed? <==> GetAccessToken(req).Ok? && tk.verify(GetAccessToken(req).value).Ok?)
      && (!r.outcome.Proceed? ==> r.outcome == Abort(StatusUnauthorized, "authentication required"))
      && r.cookies == []
  {
  }

  /** Once authenticated with claims that hold every required permission, authorization
      lets the request through; without authentication it never does. */
  lemma AuthorizeAfterAuthenticate(r: AuthResult, required: seq<string>)
    ensures r.outcome.Proceed? ==>
      (Authorize(ContextAfter(r), required) == Next <==> HasAllPermissions(r.outcome.claims, required))
    ensures !r.outcome.Proceed? ==> Authorize(ContextAfter(r), required).Deny?
  {
  }
}
