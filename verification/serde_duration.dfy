/** `serde.Duration`: a `time.Duration` (an int64 count of nanoseconds) that
    travels through JSON as a count of milliseconds. */
module SerdeDuration {
  import opened Errors
  import GoInts
  import Strconv
  import Json

  const NS_PER_MS: int := 1_000_000

  type Duration = GoInts.Int64

  /** `time.Duration.Milliseconds`: Go's integer division by 10^6, which
      truncates toward zero. */
  function Milliseconds(d: Duration): (ms: int)
    ensures GoInts.IsInt64(ms) && GoInts.IsInt64(ms * NS_PER_MS)
    ensures ms >= 0 <==> d > -NS_PER_MS
    ensures d >= 0 ==> ms * NS_PER_MS <= d < (ms + 1) * NS_PER_MS
    ensures d < 0 ==> (ms - 1) * NS_PER_MS < d <= ms * NS_PER_MS
  {
    var n: int := d;
    if n >= 0 then
      var q := n / NS_PER_MS;
      assert 0 <= q <= q * NS_PER_MS <= n;
      q
    else
      var q := (-n) / NS_PER_MS;
      assert 0 <= q <= q * NS_PER_MS <= -n;
      -q
  }

  /** The text of the millisecond count, before it is handed to `json.Marshal`. */
  function MillisText(d: Duration): string {
    Strconv.FormatInt(Milliseconds(d))
  }

  lemma MillisTextPlain(d: Duration)
    ensures forall i :: 0 <= i < |MillisText(d)| ==> Json.Plain(MillisText(d)[i])
  {
    var s := MillisText(d);
    forall i | 0 <= i < |s| ensures Json.Plain(s[i]) {
      if Milliseconds(d) < 0 && i > 0 {
        assert s[i] == s[1..][i - 1];
      }
    }
  }

  /** `Duration.MarshalJSON` as written: the decimal text is passed to
      `json.Marshal` as a Go string, so the document is a quoted string. */
  function MarshalJSON(d: Duration): (doc: string)
    ensures |doc| >= 3 && doc[0] == '"' && doc[|doc| - 1] == '"'
    ensures doc[1..|doc| - 1] == Strconv.FormatInt(Milliseconds(d))
  {
    MillisTextPlain(d);
    Json.MarshalString(MillisText(d))
  }

  /** The duration of `ms` milliseconds, with the int64 product wrapping. */
  function FromMillis(ms: int): (d: Duration)
    ensures (d - ms * NS_PER_MS) % GoInts.TWO_64 == 0
    ensures GoInts.IsInt64(ms * NS_PER_MS) ==> d == ms * NS_PER_MS
  {
    GoInts.Wrap64(ms * NS_PER_MS)
  }

  /** `Duration.UnmarshalJSON`: the receiver's new value, or the decoding error
      together with the receiver left as it was. A `null` document decodes to
      0 milliseconds. The int64 product wraps. */
  function UnmarshalJSON(recv: Duration, doc: string): (r: (Option<Error>, Duration))
    ensures r.0.Some? <==> !Json.UnmarshalInt64(doc).Ok?
    ensures r.0.Some? ==> r.1 == recv
    ensures Json.UnmarshalInt64(doc) == Ok(None) ==> r.1 == 0
    ensures Json.UnmarshalInt64(doc).Ok? && Json.UnmarshalInt64(doc).value.Some? ==>
      (r.1 - Json.UnmarshalInt64(doc).value.value * NS_PER_MS) % GoInts.TWO_64 == 0
  {
    var v := Json.UnmarshalInt64(doc);
    if v.Ok? then
      var ms := if v.value.Some? then v.value.value else 0;
      (None, FromMillis(ms))
    else
      (Some(ErrDecode), recv)
  }

  /** ns -> ms undoes ms -> ns whenever the product fits in an int64. */
  lemma MillisUndoesScale(ms: int)
    requires GoInts.IsInt64(ms * NS_PER_MS)
    ensures Milliseconds(GoInts.Wrap64(ms * NS_PER_MS)) == ms
  {
  }

  /** As written, a marshalled duration never unmarshals: the document is a
      JSON string and the decoder wants an int64. The receiver is left as
      it was. */
  lemma MarshalDoesNotRoundTrip(d: Duration, recv: Duration)
    ensures UnmarshalJSON(recv, MarshalJSON(d)) == (Some(ErrDecode), recv)
  {
    MillisTextPlain(d);
    Json.QuotedIsNotInt(MillisText(d));
  }

  /** The evidently intended encoding: the millisecond count as a bare JSON
      number. */
  function MarshalJSONBare(d: Duration): (doc: string)
    ensures Json.UnmarshalInt64(doc) == Ok(Some(Milliseconds(d)))
  {
    Json.FormatIntDecodes(Milliseconds(d));
    Strconv.FormatInt(Milliseconds(d))
  }

  /** With the bare encoding, a duration round-trips to its value truncated to
      whole milliseconds, and exactly when it is a whole number of
      milliseconds. */
  lemma BareRoundTrip(d: Duration, recv: Duration)
    ensures UnmarshalJSON(recv, MarshalJSONBare(d)).0 == None
    ensures UnmarshalJSON(recv, MarshalJSONBare(d)).1 == Milliseconds(d) * NS_PER_MS
    ensures UnmarshalJSON(recv, MarshalJSONBare(d)).1 == d <==> d % NS_PER_MS == 0
  {
  }
}
