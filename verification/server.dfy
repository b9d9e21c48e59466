/** The API server of pkg/server/server.go: what `New` demands of its configuration, the
    middleware it installs, and the route table with the authentication and permission
    each route requires. The handlers themselves are named, not run, except for the two
    gates of the reading resource, whose behaviour comes from `Auth`. */
module Server {
  import opened Base
  import GoStrings
  import Sentry
  import Claims
  import Auth
  import Users
  import Handlers

  /** The part of `config.Config` the server reads; `processed` is what `IsZero` negates. */
  datatype Config = Config(
    processed: bool,
    maintenance: bool,
    tokenKeys: map<string, string>,
    sentry: Sentry.Config)

  datatype Method = GET | POST | PUT | PATCH | DELETE | HEAD

  datatype Handler =
    | Logger
    | Recovery
    | SentryGin
    | Tags
    | Tracing
    | Cors
    | Available
    | Authenticate
    | Authorize(permissions: seq<string>)
    | Endpoint(name: string)

  /** A registered route: its method, its full path pattern and its handler chain, the
      group's middleware first. */
  datatype Route = Route(verb: Method, path: string, chain: seq<Handler>)

  /** `M` stands for the token manager, which is not part of this model. */
  datatype Server<M> = Server(conf: Config, tokens: Option<M>, middleware: seq<Handler>, routes: seq<Route>)

  const ReadPermission := "epistles:read"
  const UpdatePermission := "epistles:update"
  const DeletePermission := "epistles:delete"

  // ---------------------------------------------------------------------------------
  // Middleware

  /** The middleware list of `setupRoutes`, in order, with `nil` where a Sentry handler
      is switched off. */
  function Middlewares(s: Sentry.Config): seq<Option<Handler>> {
    [Some(Logger), Some(Recovery), Some(SentryGin),
     if Sentry.UseSentry(s) then Some(Tags) else None,
     if Sentry.UsePerformanceTracking(s) then Some(Tracing) else None,
     Some(Cors), Some(Available)]
  }

  /** The install loop: `nil` entries are skipped, the rest installed in list order. */
  function Install(ms: seq<Option<Handler>>): (r: seq<Handler>)
    ensures |r| <= |ms|
    ensures forall i :: 0 <= i < |r| ==> Some(r[i]) in ms
  {
    if |ms| == 0 then []
    else
      var rest := Install(ms[1..]);
      if ms[0].Some? then [ms[0].value] + rest else rest
  }

  /** Nothing listed is lost: every non-`nil` entry is installed. */
  lemma {:induction false} InstallKeepsAll(ms: seq<Option<Handler>>, i: nat)
    requires i < |ms| && ms[i].Some?
    ensures ms[i].value in Install(ms)
  {
    if i > 0 {
      InstallKeepsAll(ms[1..], i - 1);
    }
  }

  lemma {:induction false} InstallAppend(a: seq<Option<Handler>>, b: seq<Option<Handler>>)
    ensures Install(a + b) == Install(a) + Install(b)
  {
    if |a| > 0 {
      assert (a + b)[1..] == a[1..] + b;
      InstallAppend(a[1..], b);
    } else {
      assert a + b == b;
    }
  }

  /** Installation keeps order: of two handlers listed one after the other, the first is
      installed before the second. */
  lemma InstallKeepsOrder(a: seq<Option<Handler>>, x: Handler, b: seq<Option<Handler>>, y: Handler, c: seq<Option<Handler>>)
    ensures var r := Install(a + [Some(x)] + b + [Some(y)] + c);
      exists i, j :: 0 <= i < j < |r| && r[i] == x && r[j] == y
  {
    InstallAppend(a + [Some(x)] + b + [Some(y)], c);
    InstallAppend(a + [Some(x)] + b, [Some(y)]);
    InstallAppend(a + [Some(x)], b);
    InstallAppend(a, [Some(x)]);
    assert Install([Some(x)]) == [x];
    assert Install([Some(y)]) == [y];
    var r := Install(a + [Some(x)] + b + [Some(y)] + c);
    var i, j := |Install(a)|, |Install(a)| + 1 + |Install(b)|;
    assert r[i] == x && r[j] == y;
  }

  lemma InstallOne(x: Option<Handler>)
    ensures Install([x]) == if x.Some? then [x.value] else []
  {
    assert [x][1..] == [];
  }

  /** The installed list: logging, recovery and the Sentry handler, the tag and tracing
      handlers only when switched on, then CORS and the maintenance check. */
  lemma InstalledList(s: Sentry.Config)
    ensures Install(Middlewares(s)) ==
      [Logger, Recovery, SentryGin]
      + (if Sentry.UseSentry(s) then [Tags] else [])
      + (if Sentry.UsePerformanceTracking(s) then [Tracing] else [])
      + [Cors, Available]
  {
    var ms := Middlewares(s);
    var head := [Some(Logger), Some(Recovery), Some(SentryGin)];
    var tail := [Some(Cors), Some(Available)];
    assert ms == head + [ms[3]] + [ms[4]] + tail;
    InstallAppend(head + [ms[3]] + [ms[4]], tail);
    InstallAppend(head + [ms[3]], [ms[4]]);
    InstallAppend(head, [ms[3]]);
    InstallOne(ms[3]);
    InstallOne(ms[4]);
    assert Install(head) == [Logger, Recovery, SentryGin];
    assert Install(tail) == [Cors, Available];
  }

  /** The installed middleware: logging outermost, panic recovery before the Sentry
      handler, the tag and tracing handlers only when Sentry (and performance tracking)
      is on, and the maintenance check innermost. */
  lemma InstalledMiddleware(s: Sentry.Config)
    ensures var r := Install(Middlewares(s));
      && |r| >= 5
      && r[..3] == [Logger, Recovery, SentryGin]
      && r[|r| - 2..] == [Cors, Available]
      && (Tags in r <==> Sentry.UseSentry(s))
      && (Tracing in r <==> Sentry.UsePerformanceTracking(s))
      && (Tracing in r ==> Tags in r)
  {
    InstalledList(s);
  }

  // ---------------------------------------------------------------------------------
  // Routes

  /** The route table of `setupRoutes`, in registration order, with each group's prefix
      and middleware (`Authenticate` for `/v1/reading`) put in front of its members. */
  function Routes(): seq<Route> {
    [Route(POST, "/v1/register", [Endpoint("Register")]),
     Route(POST, "/v1/login", [Endpoint("Login")]),
     Route(POST, "/v1/logout", [Endpoint("Logout")]),
     Route(GET, ReadingPrefix, [Authenticate, Authorize([ReadPermission]), Endpoint("ListReadings")]),
     Route(POST, ReadingPrefix, [Authenticate, Authorize([UpdatePermission]), Endpoint("CreateReading")]),
     Route(GET, ReadingItem, [Authenticate, Authorize([ReadPermission]), Endpoint("FetchReading")]),
     Route(PUT, ReadingItem, [Authenticate, Authorize([UpdatePermission]), Endpoint("UpdateReading")]),
     Route(DELETE, ReadingItem, [Authenticate, Authorize([DeletePermission]), Endpoint("DeleteReading")]),
     Route(GET, "/v1/status", [Endpoint("Status")]),
     Route(GET, "/.well-known/jwks.json", [Endpoint("JWKS")]),
     Route(GET, "/.well-known/security.txt", [Endpoint("SecurityTxt")]),
     Route(GET, "/.well-known/openid-configuration", [Endpoint("OpenIDConfiguration")])]
  }

  const ReadingPrefix := "/v1/reading"
  const ReadingItem := ReadingPrefix + "/:readingID"

  predicate IsReadingPath(path: string) {
    GoStrings.HasPrefix(path, ReadingPrefix)
  }

  /** A path that differs from the reading prefix at some position inside both is not a
      reading path. */
  lemma NotReadingPath(path: string, k: nat)
    requires k < |path| && k < |ReadingPrefix| && path[k] != ReadingPrefix[k]
    ensures !IsReadingPath(path)
  {
  }

  /** The permission a reading route demands for its method. */
  function RequiredPermission(m: Method): string {
    match m
    case GET => ReadPermission
    case POST => UpdatePermission
    case PUT => UpdatePermission
    case DELETE => DeletePermission
    case _ => ""
  }

  /** The gates a route's chain must have: a reading route authenticates first, then
      authorizes with the permission its method demands, then runs its endpoint; any
      other route runs its endpoint alone. */
  predicate Guarded(r: Route) {
    if IsReadingPath(r.path) then
      |r.chain| == 3 && r.chain[0] == Authenticate && r.chain[1] == Authorize([RequiredPermission(r.verb)])
      && r.chain[2].Endpoint?
    else
      |r.chain| == 1 && r.chain[0].Endpoint?
  }

  lemma ReadingRouteGuarded(r: Route, p: string)
    requires |r.chain| == 3 && r.chain[..2] == [Authenticate, Authorize([p])] && r.chain[2].Endpoint?
    requires p == RequiredPermission(r.verb)
    requires r.path == ReadingPrefix || r.path == ReadingItem
    ensures Guarded(r)
  {
    assert ReadingItem[..|ReadingPrefix|] == ReadingPrefix;
  }

  lemma PublicRouteGuarded(r: Route, k: nat)
    requires |r.chain| == 1 && r.chain[0].Endpoint?
    requires k < |r.path| && k < |ReadingPrefix| && r.path[k] != ReadingPrefix[k]
    ensures Guarded(r)
  {
    NotReadingPath(r.path, k);
  }

  /** Every route of the table has the gates its path calls for. */
  lemma {:induction false} RoutesGuarded()
    ensures |Routes()| == 12
    ensures forall i :: 0 <= i < |Routes()| ==> Guarded(Routes()[i])
  {
    var rs := Routes();
    forall i | 0 <= i < |rs|
      ensures Guarded(rs[i])
    {
      if i == 0 { PublicRouteGuarded(rs[0], 6); }
      else if i == 1 { PublicRouteGuarded(rs[1], 4); }
      else if i == 2 { PublicRouteGuarded(rs[2], 4); }
      else if i == 3 { ReadingRouteGuarded(rs[3], ReadPermission); }
      else if i == 4 { ReadingRouteGuarded(rs[4], UpdatePermission); }
      else if i == 5 { ReadingRouteGuarded(rs[5], ReadPermission); }
      else if i == 6 { ReadingRouteGuarded(rs[6], UpdatePermission); }
      else if i == 7 { ReadingRouteGuarded(rs[7], DeletePermission); }
      else if i == 8 { PublicRouteGuarded(rs[8], 4); }
      else if i == 9 { PublicRouteGuarded(rs[9], 1); }
      else if i == 10 { PublicRouteGuarded(rs[10], 1); }
      else { PublicRouteGuarded(rs[11], 1); }
    }
  }

  /** Registration, login, logout, the status check and the well-known documents are
      served without authentication. */
  lemma PublicRoutes()
    ensures forall p :: p in ["/v1/register", "/v1/login", "/v1/logout"] ==>
      exists i :: 0 <= i < |Routes()| && Routes()[i].verb == POST && Routes()[i].path == p && Authenticate !in Routes()[i].chain
    ensures forall p :: p in ["/v1/status", "/.well-known/jwks.json", "/.well-known/security.txt", "/.well-known/openid-configuration"] ==>
      exists i :: 0 <= i < |Routes()| && Routes()[i].verb == GET && Routes()[i].path == p && Authenticate !in Routes()[i].chain
  {
    var rs := Routes();
    assert rs[0].path == "/v1/register" && rs[1].path == "/v1/login" && rs[2].path == "/v1/logout";
    assert rs[8].path == "/v1/status" && rs[9].path == "/.well-known/jwks.json";
    assert rs[10].path == "/.well-known/security.txt" && rs[11].path == "/.well-known/openid-configuration";
  }

  /** No method and path is registered twice (gin would panic at start-up). */
  lemma RoutesDistinct()
    ensures forall i, j :: 0 <= i < j < |Routes()| ==>
      (Routes()[i].verb, Routes()[i].path) != (Routes()[j].verb, Routes()[j].path)
  {
    var rs := Routes();
    assert |rs[0].path| == 12 && |rs[1].path| == 9 && |rs[2].path| == 10;
    assert |rs[3].path| == 11 && |rs[4].path| == 11;
    assert |rs[5].path| == 22 && |rs[6].path| == 22 && |rs[7].path| == 22;
    assert |rs[8].path| == 10 && |rs[9].path| == 22 && |rs[10].path| == 25 && |rs[11].path| == 33;
    assert rs[5].path[1] != rs[9].path[1];
  }

  /** The first route registered for a method and path; gin answers every other request
      with its not-found handler. */
  function Dispatch(routes: seq<Route>, m: Method, path: string): (r: Option<nat>)
    ensures r.Some? ==> r.value < |routes| && routes[r.value].verb == m && routes[r.value].path == path
    ensures r.None? <==> forall i :: 0 <= i < |routes| ==> routes[i].verb != m || routes[i].path != path
  {
    if |routes| == 0 then None
    else if routes[0].verb == m && routes[0].path == path then Some(0)
    else match Dispatch(routes[1..], m, path)
      case None => None
      case Some(k) => Some(k + 1)
  }

  // ---------------------------------------------------------------------------------
  // Running a route's chain

  datatype Response = Handled(endpoint: string, ctx: Auth.ContextValue) | Aborted(status: int, message: string)

  /** What `gin.Recovery`, installed ahead of every route, writes when a later handler
      panics: 500 with an empty body. */
  const Recovered := Aborted(Handlers.StatusInternalServerError, "")

  /** A route chain run on a request whose `Authenticate` outcome is `a`: the gates stop
      the chain or pass it on, and the first endpoint handles the request with the context
      the gates left. */
  function Run(chain: seq<Handler>, ctx: Auth.ContextValue, a: Auth.AuthResult): (r: Response)
    ensures r.Handled? ==> exists i :: 0 <= i < |chain| && chain[i] == Endpoint(r.endpoint)
    decreases |chain|
  {
    if |chain| == 0 then Aborted(404, "not found")
    else match chain[0]
      case Authenticate =>
        (match a.outcome
         case Proceed(c) => Run(chain[1..], Auth.ClaimsPtr(c), a)
         case Abort(s, m) => Aborted(s, m)
         case Crash => Recovered)
      case Authorize(ps) =>
        (match Auth.Authorize(ctx, ps)
         case Next => Run(chain[1..], ctx, a)
         case Deny(s, m) => Aborted(s, m))
      case Endpoint(n) => Handled(n, ctx)
      case _ => Run(chain[1..], ctx, a)
  }

  /** A reading endpoint runs exactly when authentication succeeded with claims holding
      the method's permission, and it then sees those claims; otherwise the request ends
      with 401 or, when reauthentication panicked, with the recovery middleware's 500. */
  lemma ReadingEndpointNeedsPermission(b: Build, i: nat, req: Auth.Request, tk: Auth.Tokens, db: Users.Database, domain: string, now: Time)
    requires i < |Routes()| && IsReadingPath(Routes()[i].path)
    ensures var a := Auth.Authenticate(b, req, tk, db, domain, now);
      var r := Run(Routes()[i].chain, Auth.Missing, a);
      && (r.Handled? <==> a.outcome.Proceed? && Claims.HasAllPermissions(a.outcome.claims, [RequiredPermission(Routes()[i].verb)]))
      && (r.Handled? ==> r.ctx == Auth.ContextAfter(a))
      && (r.Aborted? && r != Recovered ==> r.status == Auth.StatusUnauthorized)
      && (r == Recovered <==> a.outcome.Crash?)
  {
    RoutesGuarded();
    GuardedChainRuns(Routes()[i], Auth.Authenticate(b, req, tk, db, domain, now));
  }

  /** The chain of a guarded reading route runs its endpoint exactly when authentication
      passes and the claims hold the permission the method demands. */
  lemma GuardedChainRuns(route: Route, a: Auth.AuthResult)
    requires Guarded(route) && IsReadingPath(route.path)
    requires a.outcome.Abort? ==> a.outcome.status == Auth.StatusUnauthorized
    ensures var r := Run(route.chain, Auth.Missing, a);
      && (r.Handled? <==> a.outcome.Proceed? && Claims.HasAllPermissions(a.outcome.claims, [RequiredPermission(route.verb)]))
      && (r.Handled? ==> r.ctx == Auth.ContextAfter(a))
      && (r.Aborted? && r != Recovered ==> r.status == Auth.StatusUnauthorized)
      && (r == Recovered <==> a.outcome.Crash?)
  {
    var chain := route.chain;
    var need := [RequiredPermission(route.verb)];
    assert chain[1..][1..] == [chain[2]];
    Auth.AuthorizeAfterAuthenticate(a, need);
    match a.outcome {
      case Proceed(c) =>
        assert Run(chain, Auth.Missing, a) == Run(chain[1..], Auth.ClaimsPtr(c), a);
        assert chain[1..][0] == Authorize(need);
        if Claims.HasAllPermissions(c, need) {
          assert Run(chain[1..], Auth.ClaimsPtr(c), a) == Run([chain[2]], Auth.ClaimsPtr(c), a);
        }
      case Abort(_, _) =>
      case Crash =>
    }
  }

  /** A public endpoint runs whatever the credentials. */
  lemma PublicEndpointAlwaysRuns(i: nat, ctx: Auth.ContextValue, a: Auth.AuthResult)
    requires i < |Routes()| && !IsReadingPath(Routes()[i].path)
    ensures Run(Routes()[i].chain, ctx, a) == Handled(Routes()[i].chain[0].name, ctx)
  {
    RoutesGuarded();
  }

  // ---------------------------------------------------------------------------------
  // Construction

  /** `New`: an unprocessed configuration is replaced by the one loaded from the
      environment (`fromEnv`); Sentry is initialised when configured (`sentryInit`);
      outside maintenance mode token keys are required and the token manager is built
      (`newTokens`); in maintenance mode no token manager exists. */
  function New<M>(conf: Config, fromEnv: Result<Config>, sentryInit: Outcome, newTokens: Result<M>): (r: Result<Server<M>>)
    ensures !conf.processed && fromEnv.Err? ==> r == Err(fromEnv.error)
    ensures r.Ok? ==> r.value.conf == (if conf.processed then conf else fromEnv.value)
    ensures r.Ok? ==> (r.value.tokens.None? <==> r.value.conf.maintenance)
    ensures r.Ok? && !r.value.conf.maintenance ==> |r.value.conf.tokenKeys| > 0 && newTokens.Ok? && r.value.tokens == Some(newTokens.value)
    ensures r.Ok? && Sentry.UseSentry(r.value.conf.sentry) ==> sentryInit.None?
    ensures conf.processed && !conf.maintenance && |conf.tokenKeys| == 0 ==> r.Err?
    ensures conf.processed && !conf.maintenance && |conf.tokenKeys| == 0 && !Sentry.UseSentry(conf.sentry) ==> r == Err(NoTokenKeys)
    ensures conf.processed && conf.maintenance && (Sentry.UseSentry(conf.sentry) ==> sentryInit.None?) ==> r.Ok?
    ensures r.Ok? ==> r.value.middleware == Install(Middlewares(r.value.conf.sentry)) && r.value.routes == Routes()
  {
    var c :- if conf.processed then Ok(conf) else fromEnv;
    if Sentry.UseSentry(c.sentry) && sentryInit.Some? then Err(sentryInit.value)
    else if c.maintenance then Ok(Server(c, None, Install(Middlewares(c.sentry)), Routes()))
    else if |c.tokenKeys| == 0 then Err(NoTokenKeys)
    else
      var tokens :- newTokens;
      Ok(Server(c, Some(tokens), Install(Middlewares(c.sentry)), Routes()))
  }

  /** Whatever the token manager would do, a server in maintenance mode can be built
      without one, and one outside it cannot be built without token keys. */
  lemma MaintenanceNeedsNoTokens<M>(conf: Config, fromEnv: Result<Config>, t1: Result<M>, t2: Result<M>)
    requires conf.processed && !Sentry.UseSentry(conf.sentry)
    ensures conf.maintenance ==> New(conf, fromEnv, None, t1).Ok? && New(conf, fromEnv, None, t1).value.tokens.None?
    ensures !conf.maintenance && |conf.tokenKeys| == 0 ==> New(conf, fromEnv, None, t1) == New(conf, fromEnv, None, t2) == Err(NoTokenKeys)
  {
  }
}
