/** The JSON timestamps of pkg/api/v1: the zero time travels as `null`, and converts to a
    NULL database column. Go's own RFC 3339 time encoding is a parameter. */
module Api {
  import opened Base

  /** `time.Time.MarshalJSON` and `UnmarshalJSON`, which are not part of this model. */
  datatype TimeCodec = TimeCodec(marshal: Time -> Result<string>, unmarshal: string -> Result<Time>)

  /** A time codec that reads back what it writes and never writes `null` or nothing,
      as RFC 3339 strings in quotes never are. */
  predicate RoundTrips(codec: TimeCodec, t: Time) {
    codec.marshal(t).Ok? && codec.marshal(t).value != "" && codec.marshal(t).value != "null"
    && codec.unmarshal(codec.marshal(t).value) == Ok(t)
  }

  /** `Timestamp.MarshalJSON`. */
  function MarshalJSON(t: Time, codec: TimeCodec): (r: Result<string>)
    ensures t == ZeroTime ==> r == Ok("null")
    ensures t != ZeroTime ==> r == codec.marshal(t)
  {
    if t == ZeroTime then Ok("null") else codec.marshal(t)
  }

  /** `Timestamp.UnmarshalJSON`: empty input and `null` both give the zero time. */
  function UnmarshalJSON(data: string, codec: TimeCodec): (r: Result<Time>)
    ensures data == "" || data == "null" ==> r == Ok(ZeroTime)
    ensures data != "" && data != "null" ==> r == codec.unmarshal(data)
  {
    if data == "" || data == "null" then Ok(ZeroTime) else codec.unmarshal(data)
  }

  /** `Timestamp.ToSQL`. */
  function ToSQL(t: Time): (r: NullTime)
    ensures r.t == t
    ensures r.valid <==> t != ZeroTime
    ensures !r.valid ==> r == NullTimeNull
  {
    NullTime(t, t != ZeroTime)
  }

  /** Reading a column back into a timestamp (`api.Timestamp{Time: n.Time}`). */
  function FromSQL(n: NullTime): (r: Time)
    ensures n.valid ==> r == n.t
  {
    n.t
  }

  /** Every timestamp survives the JSON round trip when the time codec does, and the zero
      time does with any codec. */
  lemma JSONRoundTrip(t: Time, codec: TimeCodec)
    requires t == ZeroTime || RoundTrips(codec, t)
    ensures MarshalJSON(t, codec).Ok? && UnmarshalJSON(MarshalJSON(t, codec).value, codec) == Ok(t)
  {
  }

  /** Every timestamp survives the trip to a nullable column and back, and a NULL column
      comes back as the zero time, which is written as `null`. */
  lemma SQLRoundTrip(t: Time, codec: TimeCodec)
    ensures FromSQL(ToSQL(t)) == t
    ensures MarshalJSON(FromSQL(NullTimeNull), codec) == Ok("null")
    ensures ToSQL(FromSQL(NullTimeNull)) == NullTimeNull
  {
  }
}
