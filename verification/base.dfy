/** Shared vocabulary of the model: Go's fixed-width integers, the error values the
    packages return, and the Option/Result wrappers used instead of Go's (value, error)
    pairs. */
module Base {

  const MinInt64: int := -0x8000_0000_0000_0000
  const MaxInt64: int := 0x7fff_ffff_ffff_ffff
  const MaxUint32: int := 0xffff_ffff
  const MaxUint64: int := 0xffff_ffff_ffff_ffff
  const TwoTo64: int := 0x1_0000_0000_0000_0000

  type Int64 = x: int | MinInt64 <= x <= MaxInt64
  type Uint32 = x: int | 0 <= x <= MaxUint32

  /** Nanoseconds since the Unix epoch. Go's zero `time.Time` (1 January of year 1, UTC)
      is the instant `ZeroTime`; `time.Time.IsZero` holds exactly there. */
  type Time = int
  const ZeroTime: Time := -62_135_596_800 * 1_000_000_000
  const Millisecond: int := 1_000_000
  const Second: int := 1_000_000_000
  const Hour: int := 3600 * Second

  /** Two's-complement wrap-around of an int64 computation. */
  function Wrap64(x: int): (r: Int64)
    ensures (r - x) % TwoTo64 == 0
    ensures MinInt64 <= x <= MaxInt64 ==> r == x
  {
    ((x - MinInt64) % TwoTo64) + MinInt64
  }

  /** Go's `time.Time.Sub`: a duration that does not fit int64 nanoseconds is clamped. */
  function Saturate64(x: int): (r: Int64)
    ensures MinInt64 <= x <= MaxInt64 ==> r == x
    ensures x > MaxInt64 ==> r == MaxInt64
    ensures x < MinInt64 ==> r == MinInt64
  {
    if x > MaxInt64 then MaxInt64 else if x < MinInt64 then MinInt64 else x
  }

  /** Go's integer division, which truncates toward zero (Dafny's `/` is Euclidean). */
  function Quo(a: int, b: int): (q: int)
    requires b > 0
    ensures a >= 0 ==> q == a / b
    ensures a < 0 ==> q == -((-a) / b)
  {
    if a >= 0 then a / b else -((-a) / b)
  }

  datatype Option<+T> = None | Some(value: T)

  /** Which version of a function with a defect runs: the source as written, or the
      version corrected to do what its callers evidently expect. */
  datatype Build = AsWritten | Corrected

  /** The error values of the modelled packages. `External` stands for an error produced
      by a collaborator that is not modelled (driver, network, token library). */
  datatype Error =
    // strconv
    | NumSyntax | NumRange
    // database/sql
    | NoRows | ScanNotPointer
    // pkg/server/db
    | NotConnected | ReadOnly
    // pkg/utils/pagination
    | MissingExpiration | CursorExpired | PageSizeTooLarge | InvalidBase62 | GobTruncated | GobOverflow
    // pkg/server/epistles
    | IDRequired | LinkRequired | MissingPageSize | AlreadyExists
    // pkg/server/users
    | NoUserID | NotDerivedKey
    // pkg/server/db/schema
    | DirtySchema | VariadicDSN | NoDatabaseURL | VersionMismatch(current: nat, required: nat)
    | NoChange | WaitCanceled
    // pkg/server/fetch
    | HTTPError(code: int) | UnknownContentEncoding(encoding: string)
    // pkg/server (auth and configuration)
    | BearerUnparsable | NoAccessToken | NoRefreshToken | NoUserClaims | WrongClaimsType
    | NoTokenKeys | SentryEnvironmentRequired
    // errors wrapped with fmt.Errorf("...: %w")
    | Wrapped(context: string, inner: Error)
    | External(tag: string)

  /** `errors.Is`: the error or one it wraps is the target. */
  predicate Is(err: Error, target: Error) {
    err == target || (err.Wrapped? && Is(err.inner, target))
  }

  datatype Result<+T> = Ok(value: T) | Err(error: Error)
  {
    predicate IsFailure() { Err? }

    function PropagateFailure<U>(): Result<U>
      requires Err?
    {
      Err(error)
    }

    function Extract(): T
      requires Ok?
    {
      value
    }
  }

  /** `QueryRow(...).Scan` over a table: the first row the predicate selects. */
  function First<T>(rows: seq<T>, selects: T -> bool): (r: Option<nat>)
    ensures r.Some? ==> r.value < |rows| && selects(rows[r.value])
    ensures r.Some? ==> forall i :: 0 <= i < r.value ==> !selects(rows[i])
    ensures r.None? <==> forall i :: 0 <= i < |rows| ==> !selects(rows[i])
  {
    if |rows| == 0 then None
    else if selects(rows[0]) then Some(0)
    else
      match First(rows[1..], selects)
      case None => None
      case Some(k) => Some(k + 1)
  }

  /** Tables that agree on which rows a predicate selects give the same first row. */
  lemma {:induction false} FirstAgrees<T>(a: seq<T>, b: seq<T>, selects: T -> bool)
    requires |a| == |b| && forall i :: 0 <= i < |a| ==> (selects(a[i]) <==> selects(b[i]))
    ensures First(a, selects) == First(b, selects)
  {
    if |a| > 0 {
      FirstAgrees(a[1..], b[1..], selects);
    }
  }

  /** `sql.NullString` and `sql.NullTime`: a column value and whether it was non-NULL.
      A NULL scans as the type's zero value. */
  datatype NullString = NullString(s: string, valid: bool)
  datatype NullTime = NullTime(t: Time, valid: bool)

  const NullStringNull := NullString("", false)
  const NullTimeNull := NullTime(ZeroTime, false)

  /** An error-or-nothing return (Go's bare `error`). */
  type Outcome = Option<Error>
}
