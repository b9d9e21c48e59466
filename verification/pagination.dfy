/** Page cursors of pkg/utils/pagination: creation with a defaulted page size and a twelve
    hour lifetime, expiry, the opaque next-page token and its parsing.

    The token is gob bytes written in base 62. The byte layout of gob and of the base-62
    library is not modelled; in its place each of the four fields, in gob's field order, is
    written as a fixed-width base-62 numeral (int64 fields offset by 2^63 so that they are
    non-negative). What is kept is what the package relies on: an alphabet check first, then
    field-by-field decoding that can stop on a truncated token or on a value that does not
    fit the field, and an exact round trip. */
module Pagination {
  import opened Base

  const DefaultPageSize: Uint32 := 20
  const MaximumPageSize: Uint32 := 1000
  const CursorDuration: int := 12 * Hour

  datatype Cursor = Cursor(start: Int64, end: Int64, size: Uint32, exp: Int64)

  /** `time.Time.UnixMilli`: milliseconds since the epoch, rounded down, in int64. */
  function UnixMilli(t: Time): (r: Int64)
    ensures MinInt64 <= t / Millisecond <= MaxInt64 ==> r * Millisecond <= t < r * Millisecond + Millisecond
  {
    Wrap64(t / Millisecond)
  }

  /** `Cursor.Expires`: `time.UnixMilli(exp)`, as nanoseconds. */
  function Expires(c: Cursor): (r: Time)
    ensures r % Millisecond == 0 && r / Millisecond == c.exp
  {
    c.exp * Millisecond
  }

  /** `New`: a zero or too large page size becomes the default; the cursor expires twelve
      hours after `now`, to the millisecond. */
  function New(start: Int64, end: Int64, pageSize: Uint32, now: Time): (r: Cursor)
    ensures r.start == start && r.end == end
    ensures 0 < r.size <= MaximumPageSize
    ensures 0 < pageSize <= MaximumPageSize ==> r.size == pageSize
    ensures pageSize == 0 || pageSize > MaximumPageSize ==> r.size == DefaultPageSize
    ensures MinInt64 <= (now + CursorDuration) / Millisecond <= MaxInt64 ==>
      Expires(r) <= now + CursorDuration < Expires(r) + Millisecond
  {
    var size := if pageSize == 0 || pageSize > MaximumPageSize then DefaultPageSize else pageSize;
    Cursor(start, end, size, UnixMilli(now + CursorDuration))
  }

  /** `HasExpired`: a cursor without an expiration is an error (and reported as not
      expired); otherwise it has expired once `now` is strictly after its expiry. */
  function HasExpired(c: Cursor, now: Time): (r: (bool, Outcome))
    ensures r.1 == Some(MissingExpiration) <==> c.exp == 0
    ensures r.1.None? <==> c.exp != 0
    ensures r.1.Some? ==> !r.0
    ensures r.1.None? ==> (r.0 <==> now > Expires(c))
  {
    if c.exp == 0 then (false, Some(MissingExpiration)) else (now > Expires(c), None)
  }

  /** `IsZero`: every field is zero. */
  function IsZero(c: Cursor): (r: bool)
    ensures r <==> c == Cursor(0, 0, 0, 0)
  {
    c.start == 0 && c.end == 0 && c.size == 0 && c.exp == 0
  }

  /** `PrevPage`: the page of the same size that ends where this one starts, starting no
      earlier than 0. The subtraction is int64 arithmetic and wraps. */
  function PrevPage(c: Cursor, now: Time): (r: Cursor)
    ensures r.end == c.start && r.start >= 0
    ensures r.size == New(0, 0, c.size, now).size && r.exp == New(0, 0, c.size, now).exp
    ensures c.start >= 0 ==> r.start <= c.start && (r.start == 0 || c.start - r.start == c.size)
    ensures c.start >= c.size ==> r.start == c.start - c.size
  {
    var back := Wrap64(c.start - c.size);
    New(if back > 0 then back else 0, c.start, c.size, now)
  }

  // ---------------------------------------------------------------------------------
  // Token text

  /** The digit order of the base-62 alphabet: digits, upper case, lower case. Any other
      character gets 62. */
  function Base62Value(c: char): nat {
    if '0' <= c <= '9' then c as int - '0' as int
    else if 'A' <= c <= 'Z' then c as int - 'A' as int + 10
    else if 'a' <= c <= 'z' then c as int - 'a' as int + 36
    else 62
  }

  function Base62Char(d: nat): (c: char)
    requires d < 62
    ensures Base62Value(c) == d
  {
    if d < 10 then ('0' as int + d) as char
    else if d < 36 then ('A' as int + d - 10) as char
    else ('a' as int + d - 36) as char
  }

  predicate AllBase62(s: string) {
    forall i :: 0 <= i < |s| ==> Base62Value(s[i]) < 62
  }

  function Pow62(n: nat): (r: nat)
    ensures r > 0
  {
    if n == 0 then 1 else 62 * Pow62(n - 1)
  }

  /** Characters per field: eleven base-62 digits hold every 64-bit pattern. */
  const FieldWidth: nat := 11
  const TokenLength: nat := 4 * FieldWidth

  lemma FieldWidthSuffices()
    ensures Pow62(FieldWidth) > MaxUint64
  {
    assert Pow62(FieldWidth) == 52036560683837093888;
  }

  /** The value of a base-62 numeral. */
  function DecodeFixed(s: string): (r: nat)
    requires AllBase62(s)
    ensures r < Pow62(|s|)
  {
    if |s| == 0 then 0
    else
      var hi := s[..|s| - 1];
      DecodeFixed(hi) * 62 + Base62Value(s[|s| - 1])
  }

  /** The `w`-digit base-62 numeral of `n`, with leading zeros. */
  function EncodeFixed(n: nat, w: nat): (r: string)
    requires n < Pow62(w)
    ensures |r| == w && AllBase62(r)
    ensures DecodeFixed(r) == n
  {
    if w == 0 then ""
    else
      var hi := EncodeFixed(n / 62, w - 1);
      var r := hi + [Base62Char(n % 62)];
      assert r[..|r| - 1] == hi;
      r
  }

  lemma EncodeFixedStep(n: nat, w: nat)
    requires 0 < w && n < Pow62(w)
    ensures n / 62 < Pow62(w - 1)
    ensures EncodeFixed(n, w) == EncodeFixed(n / 62, w - 1) + [Base62Char(n % 62)]
  {
  }

  lemma Base62CharOfValue(c: char)
    requires Base62Value(c) < 62
    ensures Base62Char(Base62Value(c)) == c
  {
  }

  lemma DivMod62(n: nat, q: nat, d: nat)
    requires d < 62 && n == q * 62 + d
    ensures n / 62 == q && n % 62 == d
  {
  }

  /** A numeral is its leading digits followed by its last digit, each in the alphabet. */
  lemma SplitLast(s: string)
    requires AllBase62(s) && |s| > 0
    ensures AllBase62(s[..|s| - 1]) && Base62Value(s[|s| - 1]) < 62
    ensures s == s[..|s| - 1] + [s[|s| - 1]]
  {
  }

  lemma AppendBase62(hi: string, last: char)
    requires AllBase62(hi) && Base62Value(last) < 62
    ensures AllBase62(hi + [last])
    ensures (hi + [last])[..|hi|] == hi && (hi + [last])[|hi|] == last
    ensures DecodeFixed(hi + [last]) == DecodeFixed(hi) * 62 + Base62Value(last)
  {
    assert (hi + [last])[..|hi|] == hi;
  }

  /** One more digit keeps the round trip. */
  lemma AppendRoundTrip(hi: string, last: char)
    requires AllBase62(hi) && Base62Value(last) < 62
    requires EncodeFixed(DecodeFixed(hi), |hi|) == hi
    ensures AllBase62(hi + [last])
    ensures EncodeFixed(DecodeFixed(hi + [last]), |hi| + 1) == hi + [last]
  {
    AppendBase62(hi, last);
    var s := hi + [last];
    var n, q, d := DecodeFixed(s), DecodeFixed(hi), Base62Value(last);
    DivMod62(n, q, d);
    Base62CharOfValue(last);
    EncodeStep(hi, last, n, q, d);
  }

  lemma EncodeStep(hi: string, last: char, n: nat, q: nat, d: nat)
    requires n / 62 == q && n % 62 == d && d < 62
    requires q < Pow62(|hi|) && n < Pow62(|hi| + 1)
    requires EncodeFixed(q, |hi|) == hi && Base62Char(d) == last
    ensures EncodeFixed(n, |hi| + 1) == hi + [last]
  {
    EncodeFixedStep(n, |hi| + 1);
  }

  lemma {:induction false} EncodeDecode(s: string)
    requires AllBase62(s)
    ensures EncodeFixed(DecodeFixed(s), |s|) == s
  {
    if |s| > 0 {
      SplitLast(s);
      var hi, last := s[..|s| - 1], s[|s| - 1];
      EncodeDecode(hi);
      AppendRoundTrip(hi, last);
    }
  }

  function EncodeInt(v: Int64): (r: string)
    ensures |r| == FieldWidth && AllBase62(r)
  {
    FieldWidthSuffices();
    EncodeFixed(v - MinInt64, FieldWidth)
  }

  /** `MarshalText`: the four fields in gob's order, start, end, size, expiry. */
  function MarshalText(c: Cursor): (r: string)
    ensures |r| == TokenLength && AllBase62(r)
  {
    FieldWidthSuffices();
    EncodeInt(c.start) + EncodeInt(c.end) + EncodeFixed(c.size, FieldWidth) + EncodeInt(c.exp)
  }

  /** Gob's decoding of the `k`-th field: a token too short for it is truncated, a value
      beyond the field's range overflows. */
  function FieldAt(s: string, k: nat, bound: nat): (r: Result<nat>)
    requires AllBase62(s)
    ensures r.Ok? ==> r.value <= bound && (k + 1) * FieldWidth <= |s|
    ensures r.Ok? ==> r.value == DecodeFixed(s[k * FieldWidth..(k + 1) * FieldWidth])
    ensures |s| < (k + 1) * FieldWidth <==> r == Err(GobTruncated)
  {
    if |s| < (k + 1) * FieldWidth then Err(GobTruncated)
    else
      var v := DecodeFixed(s[k * FieldWidth..(k + 1) * FieldWidth]);
      if v > bound then Err(GobOverflow) else Ok(v)
  }

  /** `UnmarshalText`: the alphabet is checked before any field is decoded; the fields are
      decoded in order and the first failure is returned; characters after the last field
      are not read. */
  function UnmarshalText(s: string): (r: Result<Cursor>)
    ensures r == Err(InvalidBase62) <==> !AllBase62(s)
    ensures AllBase62(s) && |s| < FieldWidth ==> r == Err(GobTruncated)
    ensures r.Err? ==> r.error == InvalidBase62 || r.error == GobTruncated || r.error == GobOverflow
    ensures r.Ok? ==> |s| >= TokenLength
  {
    if !AllBase62(s) then Err(InvalidBase62)
    else
      var a :- FieldAt(s, 0, MaxUint64);
      var b :- FieldAt(s, 1, MaxUint64);
      var z :- FieldAt(s, 2, MaxUint32);
      var e :- FieldAt(s, 3, MaxUint64);
      Ok(Cursor(a + MinInt64, b + MinInt64, z, e + MinInt64))
  }

  lemma EncodeIntDecoded(p: string)
    requires AllBase62(p) && |p| == FieldWidth && DecodeFixed(p) <= MaxUint64
    ensures EncodeInt(DecodeFixed(p) + MinInt64) == p
  {
    EncodeDecode(p);
  }

  lemma EncodeSizeDecoded(p: string)
    requires AllBase62(p) && |p| == FieldWidth && DecodeFixed(p) <= MaxUint32
    ensures EncodeFixed(DecodeFixed(p), FieldWidth) == p
  {
    EncodeDecode(p);
  }

  /** Decoding is injective on what it reads: a token that decodes is, in its first 44
      characters, the text of the cursor it decodes to. */
  lemma UnmarshalMarshal(s: string)
    requires UnmarshalText(s).Ok?
    ensures MarshalText(UnmarshalText(s).value) == s[..TokenLength]
  {
    assert FieldAt(s, 0, MaxUint64).Ok? && FieldAt(s, 1, MaxUint64).Ok?;
    assert FieldAt(s, 2, MaxUint32).Ok? && FieldAt(s, 3, MaxUint64).Ok?;
    var w := FieldWidth;
    var p0, p1, p2, p3 := s[0..w], s[w..2 * w], s[2 * w..3 * w], s[3 * w..4 * w];
    SplitFields(s);
    FieldsDetermineText(UnmarshalText(s).value, p0, p1, p2, p3);
  }

  /** A cursor whose fields are what four field texts decode to is written as those
      texts. */
  lemma FieldsDetermineText(c: Cursor, p0: string, p1: string, p2: string, p3: string)
    requires |p0| == |p1| == |p2| == |p3| == FieldWidth
    requires AllBase62(p0) && AllBase62(p1) && AllBase62(p2) && AllBase62(p3)
    requires c.start - MinInt64 == DecodeFixed(p0) && c.end - MinInt64 == DecodeFixed(p1)
    requires c.size == DecodeFixed(p2) && c.exp - MinInt64 == DecodeFixed(p3)
    ensures MarshalText(c) == p0 + p1 + p2 + p3
  {
    EncodeIntDecoded(p0);
    EncodeIntDecoded(p1);
    EncodeSizeDecoded(p2);
    EncodeIntDecoded(p3);
  }

  lemma SplitFields(s: string)
    requires |s| >= TokenLength
    ensures s[..TokenLength] == s[0..FieldWidth] + s[FieldWidth..2 * FieldWidth]
      + s[2 * FieldWidth..3 * FieldWidth] + s[3 * FieldWidth..4 * FieldWidth]
  {
    var w := FieldWidth;
    assert s[0..w] + s[w..2 * w] == s[0..2 * w];
    assert s[0..2 * w] + s[2 * w..3 * w] == s[0..3 * w];
    assert s[0..3 * w] + s[3 * w..4 * w] == s[0..4 * w];
  }

  /** The slices of four concatenated fields. */
  lemma {:induction false} FieldSlices(p0: string, p1: string, p2: string, p3: string)
    requires |p0| == |p1| == |p2| == |p3| == FieldWidth
    ensures var s := p0 + p1 + p2 + p3;
      && s[0..FieldWidth] == p0 && s[FieldWidth..2 * FieldWidth] == p1
      && s[2 * FieldWidth..3 * FieldWidth] == p2 && s[3 * FieldWidth..4 * FieldWidth] == p3
  {
    var s := p0 + p1 + p2 + p3;
    var w := FieldWidth;
    assert s == ((p0 + p1) + p2) + p3;
    assert s[..3 * w] == (p0 + p1) + p2;
    assert s[..2 * w] == p0 + p1;
    assert s[0..w] == s[..2 * w][0..w];
    assert s[w..2 * w] == s[..2 * w][w..2 * w];
    assert s[2 * w..3 * w] == s[..3 * w][2 * w..3 * w];
  }

  /** Every cursor, expired or not, page size in range or not, survives the text round
      trip, and its token has 44 characters. */
  lemma {:induction false} TextRoundTrip(c: Cursor)
    ensures UnmarshalText(MarshalText(c)) == Ok(c)
    ensures 32 < |MarshalText(c)| < 96
  {
    FieldWidthSuffices();
    var s := MarshalText(c);
    FieldSlices(EncodeInt(c.start), EncodeInt(c.end), EncodeFixed(c.size, FieldWidth), EncodeInt(c.exp));
    assert FieldAt(s, 0, MaxUint64) == Ok(c.start - MinInt64);
    assert FieldAt(s, 1, MaxUint64) == Ok(c.end - MinInt64);
    assert FieldAt(s, 2, MaxUint32) == Ok(c.size);
    assert FieldAt(s, 3, MaxUint64) == Ok(c.exp - MinInt64);
  }

  /** `Parse`: a token that decodes, whose page size is allowed and which has an
      expiration that has not passed. */
  function Parse(token: string, now: Time): (r: Result<Cursor>)
    ensures r.Ok? ==> UnmarshalText(token) == r
    ensures r.Ok? ==> r.value.size <= MaximumPageSize && r.value.exp != 0 && now <= Expires(r.value)
    ensures UnmarshalText(token).Err? ==> r == UnmarshalText(token)
    ensures UnmarshalText(token).Ok? && UnmarshalText(token).value.size > MaximumPageSize ==> r == Err(PageSizeTooLarge)
    ensures UnmarshalText(token).Ok? && UnmarshalText(token).value.size <= MaximumPageSize ==>
      (var c := UnmarshalText(token).value;
       && (c.exp == 0 ==> r == Err(MissingExpiration))
       && (c.exp != 0 && now > Expires(c) ==> r == Err(CursorExpired)))
  {
    var c :- UnmarshalText(token);
    if c.size > MaximumPageSize then Err(PageSizeTooLarge)
    else
      var (expired, err) := HasExpired(c, now);
      if err.Some? then Err(err.value)
      else if expired then Err(CursorExpired)
      else Ok(c)
  }

  /** `PageToken`: refuses a cursor `Parse` would refuse, and otherwise writes its text. */
  function PageToken(c: Cursor, now: Time): (r: Result<string>)
    ensures r.Ok? <==> c.size <= MaximumPageSize && c.exp != 0 && now <= Expires(c)
    ensures r.Ok? ==> |r.value| == TokenLength && AllBase62(r.value)
    ensures c.size > MaximumPageSize ==> r == Err(PageSizeTooLarge)
    ensures c.size <= MaximumPageSize && c.exp == 0 ==> r == Err(MissingExpiration)
    ensures c.size <= MaximumPageSize && c.exp != 0 && now > Expires(c) ==> r == Err(CursorExpired)
  {
    if c.size > MaximumPageSize then Err(PageSizeTooLarge)
    else
      var (expired, err) := HasExpired(c, now);
      if err.Some? then Err(err.value)
      else if expired then Err(CursorExpired)
      else Ok(MarshalText(c))
  }

  /** A token handed out is accepted, as the same cursor, until the cursor expires. */
  lemma PageTokenParseRoundTrip(c: Cursor, now: Time, later: Time)
    requires PageToken(c, now).Ok?
    requires later <= Expires(c)
    ensures Parse(PageToken(c, now).value, later) == Ok(c)
  {
    TextRoundTrip(c);
  }

  /** Once expired, a cursor stays expired. */
  lemma ExpiryIsMonotone(c: Cursor, t: Time, u: Time)
    requires t <= u
    requires HasExpired(c, t).0
    ensures HasExpired(c, u) == (true, None)
  {
  }

  /** A fresh cursor (made after 1970-01-01T00:00:00.001 less twelve hours, when its
      expiry is not 0) is not zero, and its token round-trips for the twelve hours less
      one millisecond that follow. */
  lemma NewCursorUsable(start: Int64, end: Int64, size: Uint32, now: Time, later: Time)
    requires Millisecond <= now + CursorDuration && (now + CursorDuration) / Millisecond <= MaxInt64
    requires now <= later <= now + CursorDuration - Millisecond
    ensures !IsZero(New(start, end, size, now))
    ensures PageToken(New(start, end, size, now), now).Ok?
    ensures Parse(PageToken(New(start, end, size, now), now).value, later) == Ok(New(start, end, size, now))
  {
    var c := New(start, end, size, now);
    assert c.exp >= 1;
    PageTokenParseRoundTrip(c, now, later);
  }

  /** As written, the previous page of a cursor that starts within one page of the int64
      minimum wraps around to the top of the range. */
  lemma PrevPageWraps(now: Time)
    ensures PrevPage(Cursor(MinInt64, 0, 1, 1), now).start == MaxInt64
  {
  }
}
