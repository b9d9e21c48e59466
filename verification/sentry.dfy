/** The Sentry settings of pkg/utils/sentry/config.go: when Sentry and performance
    tracking are on, the validation rule, the release name and the client options. */
module Sentry {
  import opened Base

  datatype Config = Config(
    dsn: string,
    serverName: string,
    environment: string,
    release: string,
    trackPerformance: bool,
    sampleRate: real,
    reportErrors: bool,
    debug: bool)

  datatype ClientOptions = ClientOptions(
    dsn: string,
    environment: string,
    release: string,
    attachStacktrace: bool,
    debug: bool,
    serverName: string,
    enableTracing: bool,
    tracesSampleRate: real)

  /** `UseSentry`: Sentry is on exactly when a DSN is configured. */
  predicate UseSentry(c: Config) {
    c.dsn != ""
  }

  /** `UsePerformanceTracking`: needs Sentry on and tracking asked for. */
  function UsePerformanceTracking(c: Config): (r: bool)
    ensures r ==> UseSentry(c)
    ensures r <==> c.dsn != "" && c.trackPerformance
  {
    UseSentry(c) && c.trackPerformance
  }

  /** `Validate`: with Sentry on, the environment must be named. */
  function Validate(c: Config): (r: Outcome)
    ensures r.None? <==> !UseSentry(c) || c.environment != ""
    ensures r.Some? ==> r.value == SentryEnvironmentRequired
  {
    if UseSentry(c) && c.environment == "" then Some(SentryEnvironmentRequired) else None
  }

  /** `GetRelease`: the configured release, or the build version when none is. */
  function GetRelease(c: Config, version: string): (r: string)
    ensures c.release != "" ==> r == c.release
    ensures c.release == "" ==> r == version
  {
    if c.release == "" then version else c.release
  }

  /** `ClientOptions`: the configuration passed through, with stack traces always
      attached and tracing on only with performance tracking. */
  function Options(c: Config, version: string): (r: ClientOptions)
    ensures r.dsn == c.dsn && r.environment == c.environment && r.serverName == c.serverName
    ensures r.debug == c.debug && r.tracesSampleRate == c.sampleRate
    ensures r.release == GetRelease(c, version)
    ensures r.release != "" <==> c.release != "" || version != ""
    ensures r.attachStacktrace
    ensures r.enableTracing <==> UsePerformanceTracking(c)
  {
    ClientOptions(c.dsn, c.environment, GetRelease(c, version), true, c.debug, c.serverName,
      UsePerformanceTracking(c), c.sampleRate)
  }

  /** A configuration that validates and turns tracing on names an environment. */
  lemma TracingNeedsEnvironment(c: Config, version: string)
    requires Validate(c).None? && Options(c, version).enableTracing
    ensures c.environment != "" && Options(c, version).dsn != ""
  {
  }
}
