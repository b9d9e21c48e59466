/** The package-level database connection of pkg/server/db as a state machine: a
    once-guarded `Connect`, a `Close` that re-arms the guard, and `BeginTx`, which enforces
    the package's read-only mode. The mutex only serialises these transitions, so the
    transitions are modelled one after another. */
module Db {
  import opened Base

  datatype Config = Config(url: string, readOnly: bool, testing: bool)

  /** `connected` is `conn != nil`; `onceDone` is whether the `sync.Once` has fired. */
  datatype Conn = Conn(connected: bool, onceDone: bool, readonly: bool)

  const Initial := Conn(false, false, false)

  /** How the driver behaved when the guarded body ran: `sql.Open` (or `sqlmock.New` in
      testing mode) failed and left no pool, `Ping` failed on the new pool, or both
      succeeded. */
  datatype OpenOutcome = OpenFailed(err: Error) | PingFailed(err: Error) | Opened

  datatype TxOptions = TxOptions(readOnly: bool)
  datatype Tx = Tx(readOnly: bool)

  /** `Connect`: only the first call after start-up or after a `Close` does anything; a
      repeated call returns no error whatever configuration it is given. */
  function Connect(s: Conn, conf: Config, open: OpenOutcome): (r: (Conn, Outcome))
    ensures s.onceDone ==> r == (s, None)
    ensures !s.onceDone ==> r.0.onceDone && r.0.readonly == conf.readOnly
    ensures !s.onceDone ==> (r.0.connected <==> !open.OpenFailed?)
    ensures !s.onceDone ==> (r.1.None? <==> open.Opened?)
  {
    if s.onceDone then (s, None)
    else
      match open
      case OpenFailed(e) => (Conn(false, true, conf.readOnly), Some(e))
      case PingFailed(e) => (Conn(true, true, conf.readOnly), Some(e))
      case Opened => (Conn(true, true, conf.readOnly), None)
  }

  /** `Close`: closes an open pool and re-arms the once-guard; without a pool it does
      nothing and returns nil. `closeErr` is what the pool's own `Close` returned. */
  function Close(s: Conn, closeErr: Outcome): (r: (Conn, Outcome))
    ensures s.connected ==> !r.0.connected && !r.0.onceDone && r.1 == closeErr
    ensures !s.connected ==> r == (s, None)
  {
    if s.connected then (s.(connected := false, onceDone := false), closeErr) else (s, None)
  }

  /** `BeginTx`: fails with ErrNotConnected without a pool; nil options inherit the
      connection's read-only mode; a writable transaction on a read-only connection fails
      with ErrReadOnly. `driverErr` is what the pool's own `BeginTx` returned. */
  function BeginTx(s: Conn, opts: Option<TxOptions>, driverErr: Outcome): (r: Result<Tx>)
    ensures !s.connected ==> r == Err(NotConnected)
    ensures s.connected && s.readonly && opts.Some? && !opts.value.readOnly ==> r == Err(ReadOnly)
    ensures r.Ok? ==> s.connected && driverErr.None?
    ensures r.Ok? && opts.None? ==> r.value.readOnly == s.readonly
    ensures r.Ok? && opts.Some? ==> r.value.readOnly == opts.value.readOnly
    ensures r.Ok? ==> (s.readonly ==> r.value.readOnly)
  {
    if !s.connected then Err(NotConnected)
    else
      var o := if opts.None? then TxOptions(s.readonly) else opts.value;
      if opts.Some? && s.readonly && !o.readOnly then Err(ReadOnly)
      else if driverErr.Some? then Err(driverErr.value)
      else Ok(Tx(o.readOnly))
  }

  /** The sequence the package tests walk through: before any connect a transaction
      fails and a close is a no-op; after a connect a second connect with another
      configuration changes nothing; after a close a connect opens the pool again. */
  lemma ConnectCloseLifecycle(conf: Config, other: Config, open2: OpenOutcome, closeErr: Outcome)
    ensures BeginTx(Initial, None, None) == Err(NotConnected)
    ensures Close(Initial, closeErr) == (Initial, None)
    ensures var (s1, e1) := Connect(Initial, conf, Opened);
      && e1 == None && s1.connected
      && Connect(s1, other, open2) == (s1, None)
      && var (s2, _) := Close(s1, closeErr);
         !s2.connected && Connect(s2, conf, Opened).0 == s1
  {
  }

  /** A read-only connection refuses explicit writable transactions but serves nil
      options, and the transaction it gives is read-only. */
  lemma ReadOnlyConnection(conf: Config)
    requires conf.readOnly
    ensures var (s, _) := Connect(Initial, conf, Opened);
      && BeginTx(s, Some(TxOptions(false)), None) == Err(ReadOnly)
      && BeginTx(s, None, None) == Ok(Tx(true))
  {
  }

  /** As written, a failed `sql.Open` consumes the once-guard without leaving a pool, so
      `Close` does not re-arm it and every later `Connect` is a silent no-op. */
  lemma FailedOpenIsSticky(conf: Config, later: Config, e: Error, open: OpenOutcome, closeErr: Outcome)
    ensures var (s, _) := Connect(Initial, conf, OpenFailed(e));
      && var (s2, err2) := Close(s, closeErr);
      && err2 == None
      && Connect(s2, later, open) == (s2, None)
      && BeginTx(Connect(s2, later, open).0, None, None) == Err(NotConnected)
  {
  }
}
