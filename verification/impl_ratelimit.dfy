/** Rate-limit tiers in the store (`impl/sqlite/ratelimit.go`). A tier row
    holds its request limit, its burst and its refill period; the read side
    takes the stored period to be whole milliseconds. */
module ImplRateLimit {
  import opened Errors
  import opened Schema
  import Q = ImplQueryManager
  import GoInts
  import Strconv
  import SerdeDuration
  import EntitiesRateLimit
  import DbimplKey

  type RateLimit = EntitiesRateLimit.RateLimit

  const NS_PER_MS: int := SerdeDuration.NS_PER_MS

  /** `GetRateLimitData`: the tier's row, its stored period read as
      milliseconds and scaled to nanoseconds with int64 arithmetic, and the
      id set to the one asked for. */
  function GetRateLimitData(t: Tables, id: string): (r: Result<RateLimit>)
    ensures r.Ok? <==> id in t.rateLimits
    ensures !r.Ok? ==> r == Err(ErrNoRows)
    ensures r.Ok? ==> var row := t.rateLimits[id];
      r.value.id == id && r.value.limit == row.requests && r.value.burst == row.burst
      && (r.value.refill - row.reset * NS_PER_MS) % GoInts.TWO_64 == 0
    ensures r.Ok? && GoInts.IsInt64(t.rateLimits[id].reset * NS_PER_MS) ==>
      r.value.refill == t.rateLimits[id].reset * NS_PER_MS
  {
    var row := Q.GetRateLimitDataByID(t, id);
    if !row.Ok? then Err(row.error)
    else Ok(EntitiesRateLimit.RateLimit(id, row.value.requests, row.value.burst, GoInts.Wrap64(row.value.reset * NS_PER_MS)))
  }

  /** `CreateRateLimit` as written: the refill period is bound as its
      nanosecond count, so the row holds nanoseconds where the read side
      expects milliseconds. */
  function CreateRateLimitAsWritten(t: Tables, rl: RateLimit): (r: Tx<()>)
    ensures r.result.Ok? <==> rl.id !in t.rateLimits
    ensures r.result.Ok? ==> r.after.rateLimits == t.rateLimits[rl.id := RateLimitRow(rl.limit, rl.burst, rl.refill)]
    ensures !r.result.Ok? ==> r == Tx(Err(ErrConstraint("Ratelimits")), t)
  {
    var ins := Q.InsRateLimitData(t, rl.id, RateLimitRow(rl.limit, rl.burst, rl.refill));
    if ins.Ok? then Tx(Ok(()), ins.value) else Tx(Err(ins.error), t)
  }

  /** The row a tier is stored as, with the period in whole milliseconds. */
  function RowOf(rl: RateLimit): (row: RateLimitRow)
    ensures row.requests == rl.limit && row.burst == rl.burst
    ensures row.reset * NS_PER_MS <= rl.refill || rl.refill < 0
    ensures rl.refill < (row.reset + 1) * NS_PER_MS || rl.refill < 0
  {
    RateLimitRow(rl.limit, rl.burst, SerdeDuration.Milliseconds(rl.refill))
  }

  /** `CreateRateLimit`, storing the period in milliseconds as the read side
      expects. A tier id already in use is refused by the primary key. */
  function CreateRateLimit(t: Tables, rl: RateLimit): (r: Tx<()>)
    ensures r.result.Ok? <==> rl.id !in t.rateLimits
    ensures r.result.Ok? ==> r.after == t.(rateLimits := t.rateLimits[rl.id := RowOf(rl)])
    ensures !r.result.Ok? ==> r == Tx(Err(ErrConstraint("Ratelimits")), t)
  {
    var ins := Q.InsRateLimitData(t, rl.id, RowOf(rl));
    if ins.Ok? then Tx(Ok(()), ins.value) else Tx(Err(ins.error), t)
  }

  /** A tier created with a one-millisecond period reads back with a period
      a million times longer as written. */
  lemma CreateAsWrittenScalesRefill(t: Tables)
    requires "tier" !in t.rateLimits
    ensures var rl := EntitiesRateLimit.RateLimit("tier", 10, 5, NS_PER_MS);
      GetRateLimitData(CreateRateLimitAsWritten(t, rl).after, "tier").value.refill == NS_PER_MS * NS_PER_MS
  {
    var rl := EntitiesRateLimit.RateLimit("tier", 10, 5, NS_PER_MS);
    assert GoInts.IsInt64(NS_PER_MS * NS_PER_MS);
  }

  /** A created tier reads back with its id, limit and burst, and its period
      truncated to whole milliseconds: exactly when the period is a whole
      number of milliseconds the tier reads back unchanged. */
  lemma CreateThenGet(t: Tables, rl: RateLimit)
    requires rl.id !in t.rateLimits
    ensures GetRateLimitData(CreateRateLimit(t, rl).after, rl.id).Ok?
    ensures var g := GetRateLimitData(CreateRateLimit(t, rl).after, rl.id).value;
      g.id == rl.id && g.limit == rl.limit && g.burst == rl.burst
      && g.refill == SerdeDuration.Milliseconds(rl.refill) * NS_PER_MS
      && (g == rl <==> rl.refill % NS_PER_MS == 0)
  {
    var ms := SerdeDuration.Milliseconds(rl.refill);
    var g := GetRateLimitData(CreateRateLimit(t, rl).after, rl.id).value;
    assert g.refill == ms * NS_PER_MS;
    if rl.refill % NS_PER_MS == 0 {
      var q := rl.refill / NS_PER_MS;
      assert rl.refill == q * NS_PER_MS;
      if rl.refill >= 0 {
        assert ms == q;
      } else {
        assert ms == q;
      }
    }
  }

  /** `DeleteRateLimit`: delete the tier's row. Keys naming the tier keep
      their reference. */
  function DeleteRateLimit(t: Tables, id: string): (r: Tx<()>)
    ensures r.result.Ok?
    ensures r.after == t.(rateLimits := t.rateLimits - {id})
  {
    Tx(Ok(()), Q.DelRateLimitByID(t, id))
  }

  /** Deleting a tier just created gives back the tables as they were, and
      the deleted tier no longer reads back. */
  lemma DeleteUndoesCreate(t: Tables, rl: RateLimit)
    requires rl.id !in t.rateLimits
    ensures DeleteRateLimit(CreateRateLimit(t, rl).after, rl.id).after == t
    ensures !GetRateLimitData(DeleteRateLimit(CreateRateLimit(t, rl).after, rl.id).after, rl.id).Ok?
  {
    assert t.rateLimits[rl.id := RowOf(rl)] - {rl.id} == t.rateLimits;
  }

  /** `SetRateLimit` as written: `(key.ID, limitID)` is bound to
      `SET ratelimitid = ? WHERE keyid = ?`, so the key named `limitID`, if
      any, gets `key.ID` as its tier. */
  function SetRateLimitAsWritten(t: Tables, keyID: string, limitID: string): (r: Tx<()>)
    ensures r.result.Ok?
    ensures limitID in t.keys ==> r.after.keys == t.keys[limitID := t.keys[limitID].(rateLimitID := Some(keyID))]
    ensures limitID !in t.keys ==> r.after == t
  {
    Tx(Ok(()), Q.UpdKeyRateLimitID(t, keyID, limitID))
  }

  /** `SetRateLimit` with the arguments in statement order: the key gets the
      tier; a missing key is not an error, as for any UPDATE. */
  function SetRateLimit(t: Tables, keyID: string, limitID: string): (r: Tx<()>)
    ensures r.result.Ok?
    ensures keyID in t.keys ==> r.after.keys == t.keys[keyID := t.keys[keyID].(rateLimitID := Some(limitID))]
    ensures keyID !in t.keys ==> r.after == t
    ensures r.after.roles == t.roles && r.after.keyRoles == t.keyRoles && r.after.rateLimits == t.rateLimits
  {
    Tx(Ok(()), Q.UpdKeyRateLimitID(t, limitID, keyID))
  }

  /** After setting a key's tier, reading the key's tier yields it. As
      written, the key's tier is untouched unless the tier id names a key. */
  lemma SetThenGetTier(t: Tables, keyID: string, limitID: string)
    requires keyID in t.keys
    ensures DbimplKey.GetKeyRateLimitID(SetRateLimit(t, keyID, limitID).after, keyID) == (limitID, None)
    ensures limitID !in t.keys ==>
      DbimplKey.GetKeyRateLimitID(SetRateLimitAsWritten(t, keyID, limitID).after, keyID)
      == DbimplKey.GetKeyRateLimitID(t, keyID)
  {
  }

  /** The outcome of `UpdateRateLimit` as written. The five arguments are
      bound one place off, so the WHERE clause compares tier ids with the
      refill period's decimal text: only a tier named like that number is
      touched, and any other call affects no row. */
  function UpdateRateLimitAsWritten(t: Tables, id: string, rl: RateLimit): (r: Result<()>)
    ensures Strconv.FormatInt(rl.refill) !in t.rateLimits ==> r == Err(ErrRowsAffected(0))
    ensures r.Ok? ==> Strconv.FormatInt(rl.refill) in t.rateLimits
  {
    var matched := Strconv.FormatInt(rl.refill);
    if matched !in t.rateLimits then Err(ErrRowsAffected(0))
    else if id != matched && id in t.rateLimits then Err(ErrConstraint("Ratelimits"))
    else Ok(())
  }

  /** `UpdateRateLimit` with the arguments in statement order: the tier `id`
      is rewritten under `rl.id` with `rl`'s limits. An error unless exactly
      one row is affected; renaming onto another tier's id is refused. */
  function UpdateRateLimit(t: Tables, id: string, rl: RateLimit): (r: Tx<()>)
    ensures r.result.Ok? <==> id in t.rateLimits && (rl.id == id || rl.id !in t.rateLimits)
    ensures id !in t.rateLimits ==> r == Tx(Err(ErrRowsAffected(0)), t)
    ensures !r.result.Ok? ==> r.result.Err? && r.after == t
    ensures r.result.Ok? ==> r.after == t.(rateLimits := (t.rateLimits - {id})[rl.id := RowOf(rl)])
  {
    if id !in t.rateLimits then Tx(Err(ErrRowsAffected(0)), t)
    else if rl.id != id && rl.id in t.rateLimits then Tx(Err(ErrConstraint("Ratelimits")), t)
    else Tx(Ok(()), t.(rateLimits := (t.rateLimits - {id})[rl.id := RowOf(rl)]))
  }

  /** Updating an existing tier whose refill period does not spell another
      tier's id fails as written, and succeeds once corrected. */
  lemma UpdateAsWrittenMissesTier(t: Tables, rl: RateLimit)
    requires rl.id in t.rateLimits && Strconv.FormatInt(rl.refill) !in t.rateLimits
    ensures UpdateRateLimitAsWritten(t, rl.id, rl) == Err(ErrRowsAffected(0))
    ensures UpdateRateLimit(t, rl.id, rl).result.Ok?
    ensures GetRateLimitData(UpdateRateLimit(t, rl.id, rl).after, rl.id).value.limit == rl.limit
  {
  }
}
