/** `serde.Time`: a `time.Time` that travels through JSON as Unix
    milliseconds. An instant is modelled by its Unix time in nanoseconds. */
module SerdeTime {
  import opened Errors
  import GoInts
  import Strconv
  import Json

  const NS_PER_MS: int := 1_000_000

  /** An instant, as nanoseconds since the Unix epoch. */
  type Time = int

  /** `time.Time.UnixMilli`: whole milliseconds since the epoch, rounded
      toward negative infinity (the nanosecond field is never negative). */
  function UnixMilli(t: Time): (ms: int)
    ensures ms * NS_PER_MS <= t < (ms + 1) * NS_PER_MS
  {
    t / NS_PER_MS
  }

  /** `time.Unix(0, ns)`. */
  function FromUnixNano(ns: GoInts.Int64): Time
  {
    ns
  }

  /** `time.Time.UnixNano`: the nanosecond count as an int64, which wraps for
      instants more than about 292 years from the epoch. */
  function UnixNano(t: Time): GoInts.Int64 {
    GoInts.Wrap64(t)
  }

  /** `t.Sub(u)`: the elapsed `time.Duration`, saturating at the int64 bounds
      (so its sign is always the sign of the true difference). */
  function Sub(t: Time, u: Time): (d: GoInts.Int64)
    ensures d > 0 <==> t > u
    ensures d == 0 <==> t == u
    ensures GoInts.IsInt64(t - u) ==> d == t - u
  {
    var diff := t - u;
    if diff > GoInts.INT64_MAX then GoInts.INT64_MAX
    else if diff < GoInts.INT64_MIN then GoInts.INT64_MIN
    else diff
  }

  function MillisText(t: Time): string {
    Strconv.FormatInt(UnixMilli(t))
  }

  lemma MillisTextPlain(t: Time)
    ensures forall i :: 0 <= i < |MillisText(t)| ==> Json.Plain(MillisText(t)[i])
  {
    var s := MillisText(t);
    forall i | 0 <= i < |s| ensures Json.Plain(s[i]) {
      if UnixMilli(t) < 0 && i > 0 {
        assert s[i] == s[1..][i - 1];
      }
    }
  }

  /** `Time.MarshalJSON` as written: the decimal millisecond text becomes a
      JSON string. */
  function MarshalJSON(t: Time): (doc: string)
    ensures |doc| >= 3 && doc[0] == '"' && doc[|doc| - 1] == '"'
    ensures doc[1..|doc| - 1] == Strconv.FormatInt(UnixMilli(t))
  {
    MillisTextPlain(t);
    Json.MarshalString(MillisText(t))
  }

  /** The instant `ms` milliseconds from the epoch, with the int64 product
      wrapping. */
  function FromUnixMilli(ms: int): (t: Time)
    ensures GoInts.IsInt64(t) && (t - ms * NS_PER_MS) % GoInts.TWO_64 == 0
    ensures GoInts.IsInt64(ms * NS_PER_MS) ==> t == ms * NS_PER_MS
  {
    FromUnixNano(GoInts.Wrap64(ms * NS_PER_MS))
  }

  /** `Time.UnmarshalJSON`: the new instant, or the decoding error with the
      receiver left as it was. `null` decodes to the epoch; the int64 product
      `ms * 10^6` wraps. */
  function UnmarshalJSON(recv: Time, doc: string): (r: (Option<Error>, Time))
    ensures r.0.Some? <==> !Json.UnmarshalInt64(doc).Ok?
    ensures r.0.Some? ==> r.1 == recv
    ensures Json.UnmarshalInt64(doc) == Ok(None) ==> r.1 == 0
    ensures Json.UnmarshalInt64(doc).Ok? && Json.UnmarshalInt64(doc).value.Some? ==>
      GoInts.IsInt64(r.1) &&
      (r.1 - Json.UnmarshalInt64(doc).value.value * NS_PER_MS) % GoInts.TWO_64 == 0
  {
    var v := Json.UnmarshalInt64(doc);
    if v.Ok? then
      var ms := if v.value.Some? then v.value.value else 0;
      (None, FromUnixMilli(ms))
    else
      (Some(ErrDecode), recv)
  }

  /** Unix ms -> instant -> `UnixMilli` is the identity while `ms * 10^6`
      fits in an int64. */
  lemma MillisRoundTrip(ms: int)
    requires GoInts.IsInt64(ms * NS_PER_MS)
    ensures UnixMilli(FromUnixNano(GoInts.Wrap64(ms * NS_PER_MS))) == ms
  {
  }

  /** As written, a marshalled time never unmarshals: the decoder is handed a
      JSON string where it wants an int64, and the receiver is left as it was. */
  lemma MarshalDoesNotRoundTrip(t: Time, recv: Time)
    ensures UnmarshalJSON(recv, MarshalJSON(t)) == (Some(ErrDecode), recv)
  {
    MillisTextPlain(t);
    Json.QuotedIsNotInt(MillisText(t));
  }

  /** The evidently intended encoding: Unix milliseconds as a bare number. */
  function MarshalJSONBare(t: Time): (doc: string)
    requires GoInts.IsInt64(UnixMilli(t))
    ensures Json.UnmarshalInt64(doc) == Ok(Some(UnixMilli(t)))
  {
    Json.FormatIntDecodes(UnixMilli(t));
    Strconv.FormatInt(UnixMilli(t))
  }

  /** With the bare encoding an instant comes back truncated to its
      millisecond, and unchanged exactly when it falls on a whole millisecond. */
  lemma BareRoundTrip(t: Time, recv: Time)
    requires GoInts.IsInt64(UnixMilli(t) * NS_PER_MS)
    ensures GoInts.IsInt64(UnixMilli(t))
    ensures UnmarshalJSON(recv, MarshalJSONBare(t)).0 == None
    ensures UnmarshalJSON(recv, MarshalJSONBare(t)).1 == UnixMilli(t) * NS_PER_MS
    ensures UnmarshalJSON(recv, MarshalJSONBare(t)).1 == t <==> t % NS_PER_MS == 0
  {
  }
}
