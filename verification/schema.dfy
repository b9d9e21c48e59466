/** The schema package of pkg/server/db/schema: a migrator configured once from a DSN
    (a database URL), checks of the database's schema version against the newest
    migration the binary carries, and the migrations themselves.

    The package-level variables become a `State` threaded through the operations; the
    mutex around them is left out. The environment is a map, the migration source is the
    ascending list of its versions, and what the database and the migration library
    answer (the open, the version row, the outcome of running migrations, the verdicts
    while waiting) are parameters. */
module Schema {
  import opened Base

  const CosmosDatabaseURL := "COSMOS_DATABASE_URL"
  const DatabaseURL := "DATABASE_URL"

  /** The migration source: the versions of the embedded migrations. */
  datatype Source = Source(versions: seq<nat>)

  predicate Ascending(s: seq<nat>) {
    forall i, j :: 0 <= i < j < |s| ==> s[i] < s[j]
  }

  /** A migrator opened on a database. */
  datatype Migrator = Migrator(dsn: string)

  /** `migrator`, `driver` and `ready`. */
  datatype State = State(migrator: Option<Migrator>, driver: Option<Source>, ready: bool)

  const Initial := State(None, None, false)

  /** Once ready, the package has both a migrator and a source. */
  predicate Valid(st: State) {
    st.ready ==> st.migrator.Some? && st.driver.Some?
  }

  /** What the outside world answers while configuring: the environment, the embedded
      source, whether wrapping it as a driver fails, and whether opening the migrator
      fails. */
  datatype Setup = Setup(env: map<string, string>, source: Source, driverErr: Outcome, openErr: Outcome)

  function Getenv(env: map<string, string>, name: string): string {
    if name in env then env[name] else ""
  }

  /** `findDatabaseDSN`: the first of the two variables that is set and non-empty. */
  function FindDatabaseDSN(env: map<string, string>): (r: Result<string>)
    ensures Getenv(env, CosmosDatabaseURL) != "" ==> r == Ok(Getenv(env, CosmosDatabaseURL))
    ensures Getenv(env, CosmosDatabaseURL) == "" && Getenv(env, DatabaseURL) != "" ==> r == Ok(Getenv(env, DatabaseURL))
    ensures r.Err? <==> Getenv(env, CosmosDatabaseURL) == "" && Getenv(env, DatabaseURL) == ""
    ensures r.Err? ==> r.error == NoDatabaseURL
    ensures r.Ok? ==> r.value != ""
  {
    if Getenv(env, CosmosDatabaseURL) != "" then Ok(Getenv(env, CosmosDatabaseURL))
    else if Getenv(env, DatabaseURL) != "" then Ok(Getenv(env, DatabaseURL))
    else Err(NoDatabaseURL)
  }

  /** The DSN `Configure` will use: looked up with no argument, taken with one, refused
      with more, and refused when empty. */
  function ChooseDSN(vdsn: seq<string>, env: map<string, string>): (r: Result<string>)
    ensures |vdsn| > 1 ==> r == Err(VariadicDSN)
    ensures |vdsn| == 1 ==> r == (if vdsn[0] == "" then Err(NoDatabaseURL) else Ok(vdsn[0]))
    ensures |vdsn| == 0 ==> r == FindDatabaseDSN(env)
    ensures r.Ok? ==> r.value != ""
  {
    var dsn :- match |vdsn|
      case 0 => FindDatabaseDSN(env)
      case 1 => Ok(vdsn[0])
      case _ => Err(VariadicDSN);
    if dsn == "" then Err(NoDatabaseURL) else Ok(dsn)
  }

  /** `Configure`: nothing to do once ready; otherwise opens a migrator on the chosen
      DSN. A driver built before the migrator fails to open is kept, and a failed open
      clears the migrator. */
  function Configure(st: State, vdsn: seq<string>, setup: Setup): (r: (State, Outcome))
    ensures st.ready ==> r == (st, None)
    ensures !st.ready && ChooseDSN(vdsn, setup.env).Err? ==> r == (st, Some(ChooseDSN(vdsn, setup.env).error))
    ensures !st.ready && ChooseDSN(vdsn, setup.env).Ok? && setup.driverErr.Some? ==>
      r == (st.(driver := None), setup.driverErr)
    ensures r.1.None? <==> st.ready || (ChooseDSN(vdsn, setup.env).Ok? && setup.driverErr.None? && setup.openErr.None?)
    ensures !st.ready && r.1.None? ==>
      r.0 == State(Some(Migrator(ChooseDSN(vdsn, setup.env).value)), Some(setup.source), true)
    ensures Valid(st) ==> Valid(r.0)
    ensures r.1.Some? ==> !r.0.ready
  {
    if st.ready then (st, None)
    else
      match ChooseDSN(vdsn, setup.env)
      case Err(e) => (st, Some(e))
      case Ok(dsn) =>
        if setup.driverErr.Some? then (st.(driver := None), setup.driverErr)
        else if setup.openErr.Some? then (State(None, Some(setup.source), false), setup.openErr)
        else (State(Some(Migrator(dsn)), Some(setup.source), true), None)
  }

  /** `Close`: forgets the migrator, the source and readiness. */
  function Close(st: State): (r: State)
    ensures !r.ready && r.migrator.None? && r.driver.None?
    ensures r == Initial
  {
    Initial
  }

  /** Once configured, configuring again changes nothing, whatever DSNs are passed. */
  lemma ConfigureOnce(st: State, vdsn: seq<string>, setup: Setup, vdsn2: seq<string>, setup2: Setup)
    requires Configure(st, vdsn, setup).1.None?
    ensures var st1 := Configure(st, vdsn, setup).0;
      Configure(st1, vdsn2, setup2) == (st1, None)
  {
  }

  /** After `Close` the next `Configure` opens a migrator on its own DSN. */
  lemma CloseThenReconfigure(st: State, dsn: string, setup: Setup)
    requires dsn != "" && setup.driverErr.None? && setup.openErr.None?
    ensures Configure(Close(st), [dsn], setup) == (State(Some(Migrator(dsn)), Some(setup.source), true), None)
  {
  }

  // ---------------------------------------------------------------------------------
  // Versions

  /** `driver.Next(v)`: the first embedded version after `v`. The migration source's
      `Next` fails for a `v` that is not embedded, where this gives the next larger one;
      the two agree on the embedded versions, the only ones `FindRequiredVersion` asks
      about (`NextInAscending`). */
  function NextVersion(versions: seq<nat>, v: nat): (r: Option<nat>)
    ensures r.Some? ==> r.value in versions && r.value > v
    ensures r.None? ==> forall i :: 0 <= i < |versions| ==> versions[i] <= v
  {
    if |versions| == 0 then None
    else if versions[0] > v then Some(versions[0])
    else NextVersion(versions[1..], v)
  }

  /** In an ascending list, the version after the one at `i` is the one at `i + 1`. */
  lemma {:induction false} NextInAscending(versions: seq<nat>, i: nat)
    requires Ascending(versions) && i < |versions|
    ensures NextVersion(versions, versions[i]) == if i + 1 < |versions| then Some(versions[i + 1]) else None
  {
    if i > 0 {
      assert Ascending(versions[1..]);
      assert versions[1..][i - 1] == versions[i];
      NextInAscending(versions[1..], i - 1);
    }
  }

  /** `findRequiredVersion`: from the first version, follow `Next` until it fails; 0 when
      there are no migrations. */
  method FindRequiredVersion(src: Source) returns (version: nat)
    requires Ascending(src.versions)
    ensures |src.versions| == 0 ==> version == 0
    ensures |src.versions| > 0 ==> version == src.versions[|src.versions| - 1]
    ensures forall i :: 0 <= i < |src.versions| ==> src.versions[i] <= version
  {
    var vs := src.versions;
    if |vs| == 0 {
      return 0;
    }
    version := vs[0];
    var k := 0;
    NextInAscending(vs, k);
    var next := NextVersion(vs, version);
    while next.Some?
      invariant 0 <= k < |vs| && version == vs[k]
      invariant next == NextVersion(vs, version)
      invariant next == if k + 1 < |vs| then Some(vs[k + 1]) else None
      decreases |vs| - k
    {
      version := next.value;
      k := k + 1;
      NextInAscending(vs, k);
      next := NextVersion(vs, version);
    }
    assert k == |vs| - 1;
  }

  /** The newest embedded version, as a function. */
  function RequiredVersion(src: Source): (r: nat)
    requires Ascending(src.versions)
    ensures forall i :: 0 <= i < |src.versions| ==> src.versions[i] <= r
    ensures |src.versions| > 0 ==> r in src.versions
  {
    if |src.versions| == 0 then 0 else src.versions[|src.versions| - 1]
  }

  /** `migrator.Version()`: the database's version and dirty flag (0 and clean when it
      has none). */
  datatype DatabaseVersion = DatabaseVersion(current: nat, dirty: bool)

  /** `Version`. */
  datatype Version = Version(required: nat, current: nat, dirty: bool)

  /** `CurrentVersion`: configures, then reports the required and the current version. */
  function CurrentVersion(st: State, vdsn: seq<string>, setup: Setup, db: DatabaseVersion): (r: (State, Result<Version>))
    requires Valid(st)
    requires st.driver.Some? ==> Ascending(st.driver.value.versions)
    requires Ascending(setup.source.versions)
    ensures r.0 == Configure(st, vdsn, setup).0
    ensures r.1.Err? <==> Configure(st, vdsn, setup).1.Some?
    ensures r.1.Ok? ==> r.1.value == Version(RequiredVersion(r.0.driver.value), db.current, db.dirty)
  {
    var (st1, err) := Configure(st, vdsn, setup);
    if err.Some? then (st1, Err(err.value))
    else (st1, Ok(Version(RequiredVersion(st1.driver.value), db.current, db.dirty)))
  }

  /** `Verify`: the database is at the required version and clean. A version mismatch is
      reported before a dirty flag. */
  function Verify(st: State, vdsn: seq<string>, setup: Setup, db: DatabaseVersion): (r: (State, Outcome))
    requires Valid(st)
    requires st.driver.Some? ==> Ascending(st.driver.value.versions)
    requires Ascending(setup.source.versions)
    ensures r.0 == Configure(st, vdsn, setup).0
    ensures var v := CurrentVersion(st, vdsn, setup, db).1;
      && (v.Err? ==> r.1 == Some(v.error))
      && (v.Ok? && v.value.required != v.value.current ==> r.1 == Some(VersionMismatch(v.value.current, v.value.required)))
      && (v.Ok? && v.value.required == v.value.current && v.value.dirty ==> r.1 == Some(DirtySchema))
      && (r.1.None? <==> v.Ok? && v.value.required == v.value.current && !v.value.dirty)
  {
    var (st1, v) := CurrentVersion(st, vdsn, setup, db);
    if v.Err? then (st1, Some(v.error))
    else if v.value.required != v.value.current then (st1, Some(VersionMismatch(v.value.current, v.value.required)))
    else if v.value.dirty then (st1, Some(DirtySchema))
    else (st1, None)
  }

  /** A ready package verifies exactly when the database is clean at the newest embedded
      version. */
  lemma VerifyReady(st: State, vdsn: seq<string>, setup: Setup, db: DatabaseVersion)
    requires Valid(st) && st.ready && Ascending(st.driver.value.versions)
    requires Ascending(setup.source.versions)
    ensures Verify(st, vdsn, setup, db).1.None? <==> db.current == RequiredVersion(st.driver.value) && !db.dirty
    ensures Verify(st, vdsn, setup, db).0 == st
  {
  }

  /** `Migrate` and `Down`: configure, then run the migrations; "no change" is success. */
  function Migrate(st: State, vdsn: seq<string>, setup: Setup, runErr: Outcome): (r: (State, Outcome))
    ensures r.0 == Configure(st, vdsn, setup).0
    ensures Configure(st, vdsn, setup).1.Some? ==> r.1 == Configure(st, vdsn, setup).1
    ensures Configure(st, vdsn, setup).1.None? ==> r.1 == (if runErr == Some(NoChange) then None else runErr)
    ensures r.1.None? ==> r.0.ready
  {
    var (st1, err) := Configure(st, vdsn, setup);
    if err.Some? then (st1, err)
    else if runErr == Some(NoChange) then (st1, None)
    else (st1, runErr)
  }

  /** Migrating twice: whatever the first run did, a second run that finds nothing to do
      succeeds, on the same migrator. */
  lemma MigrateTwice(st: State, vdsn: seq<string>, setup: Setup, runErr: Outcome, vdsn2: seq<string>, setup2: Setup)
    requires Migrate(st, vdsn, setup, runErr).0.ready
    ensures var st1 := Migrate(st, vdsn, setup, runErr).0;
      Migrate(st1, vdsn2, setup2, Some(NoChange)) == (st1, None)
  {
  }

  // ---------------------------------------------------------------------------------
  // Wait

  /** `Wait`: verify until the schema is right or the context is canceled. `verdicts(k)`
      is what the `k`th verification says; the context is canceled during the wait that
      follows the verification numbered `canceledAt`. The cancellation error is formatted
      with `%s`, so it does not wrap the context's error. */
  method Wait(verdicts: nat -> Outcome, canceledAt: nat) returns (err: Outcome)
    ensures err.None? <==> exists k :: 0 <= k <= canceledAt && verdicts(k).None?
    ensures err.Some? ==> err == Some(WaitCanceled) && forall k :: 0 <= k <= canceledAt ==> verdicts(k).Some?
  {
    var iters := 0;
    while true
      invariant 0 <= iters <= canceledAt
      invariant forall k :: 0 <= k < iters ==> verdicts(k).Some?
      decreases canceledAt - iters
    {
      if verdicts(iters).None? {
        return None;
      }
      if iters == canceledAt {
        return Some(WaitCanceled);
      }
      iters := iters + 1;
    }
  }
}
