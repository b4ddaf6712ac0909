/** The `KeyAuth` middleware (`server/middleware/keyauth.go`): find the key
    in the request, guard the key store with a per-IP limiter of failed
    attempts, and admit only existing, unexpired keys. */
module KeyAuth {
  import opened Errors
  import opened Handler
  import EntitiesKey
  import SerdeTime

  /** `extractKey`: a non-empty `authorization` header wins, then a
      non-empty `key` query parameter; otherwise there is no key. */
  function ExtractKey(header: string, query: string): (r: (string, bool))
    ensures r.1 <==> header != "" || query != ""
    ensures header != "" ==> r.0 == header
    ensures header == "" && query != "" ==> r.0 == query
    ensures !r.1 ==> r.0 == ""
  {
    if |header| > 0 then (header, true)
    else if |query| > 0 then (query, true)
    else ("", false)
  }

  /** The decision of `KeyAuth` for one request. `lookup` is the key
      store's answer for the extracted key and `now` the wall clock; the
      third component is the key stored in the request context. */
  function KeyAuth(header: string, query: string, ip: string, grant: Grant,
                   lookup: (EntitiesKey.Key, Option<Error>), now: SerdeTime.Time)
    : (r: (Outcome, seq<Event>, Option<EntitiesKey.Key>))
    ensures !ExtractKey(header, query).1 ==> r == (Abort(403), [], None)
    ensures ExtractKey(header, query).1 && !grant(AuthIP, ip) ==> r == (Abort(429), [Probed(AuthIP, ip)], None)
    ensures r.0 == Next <==> (ExtractKey(header, query).1 && grant(AuthIP, ip) && lookup.1.None?
                              && !EntitiesKey.IsExpired(lookup.0, now))
    ensures r.0 == Next ==> r.2 == Some(lookup.0)
    ensures r.0 != Next ==> r.2 == None
    ensures Net(r.1, AuthIP, ip) == (if ExtractKey(header, query).1 && r.0 == Abort(403) && lookup.1 == Some(ErrNoDocuments) then 1 else 0)
    ensures ExtractKey(header, query).1 && grant(AuthIP, ip) && lookup.1.Some? ==>
      r.0 == (if lookup.1.value == ErrNoDocuments then Abort(403) else Abort(500))
    ensures ExtractKey(header, query).1 && grant(AuthIP, ip) && lookup.1.None? && EntitiesKey.IsExpired(lookup.0, now) ==>
      r.0 == Abort(401)
  {
    var (auth, ok) := ExtractKey(header, query);
    if !ok then (Abort(403), [], None)
    else
      var t := [Probed(AuthIP, ip)];
      if !grant(AuthIP, ip) then (Abort(429), t, None)
      else
        var t2 := t + [KeyLookup(auth)];
        var e: seq<Event> := [];
        NetSnoc2(e, Probed(AuthIP, ip), KeyLookup(auth), AuthIP, ip);
        assert e + [Probed(AuthIP, ip), KeyLookup(auth)] == t2;
        if lookup.1.Some? then
          if lookup.1.value == ErrNoDocuments then
            NetSnoc(t2, DrawOne(AuthIP, ip, grant), AuthIP, ip);
            (Abort(403), t2 + [DrawOne(AuthIP, ip, grant)], None)
          else (Abort(500), t2, None)
        else if EntitiesKey.IsExpired(lookup.0, now) then (Abort(401), t2, None)
        else (Next, t2, Some(lookup.0))
  }
}
