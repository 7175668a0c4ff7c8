/**
 * Get-or-fetch over the cache service. A fetch function is modelled by the outcome it would
 * produce (`None` when the caller passes no fetch function); the `fetched` result says whether
 * it was called. `flushes` counts the saves of the web database to persistent storage, and
 * `written` logs what `writeToBackend` handed to its write function.
 */
module CacheController {
  import opened Wrappers
  import opened Json
  import opened CacheModel
  import opened CacheService

  datatype ControllerError = Malformed(read: ReadError) | FetchFailed(reason: string)

  /** Flushes after a write: one on the web platform, none elsewhere. */
  function FlushCount(isWeb: bool): nat {
    if isWeb then 1 else 0
  }

  class CacheController {
    const service: CacheService
    const isWeb: bool
    var flushes: nat
    var written: seq<Json>

    constructor(service: CacheService, isWeb: bool)
      ensures this.service == service && this.isWeb == isWeb
      ensures flushes == 0 && written == []
    {
      this.service := service;
      this.isWeb := isWeb;
      flushes := 0;
      written := [];
    }

    /** Nothing observable changed: the table, the flush count and the backend log. */
    twostate predicate Unchanged()
      reads this, service.model
    {
      service.model.rows == old(service.model.rows) && flushes == old(flushes) && written == old(written)
    }

    /**
     * The outcome of `getData(key, fetchFn, expiration)` at time `now`:
     * - a stored text that does not parse is an error and nothing is fetched or written;
     * - a truthy cached value is returned without fetching or writing;
     * - a falsy or missing value with no fetch function gives null and writes nothing;
     * - otherwise the fetch runs once; its failure writes nothing, its value is stored under
     *   `key` with `expiration`, flushed on the web, and returned.
     */
    twostate predicate GetDataSpec(key: string, fetch: Option<Result<Json, string>>, expiration: Option<int>,
                                   now: int, new r: Result<Json, ControllerError>, fetched: bool)
      reads this, service.model
    {
      var cached := DecodeStored(Lookup(old(service.model.rows), key, now));
      var miss := cached.Success? && !Truthy(cached.value);
      && (cached.Failure? ==> r == Failure(Malformed(cached.error)) && !fetched && Unchanged())
      && (cached.Success? && Truthy(cached.value) ==> r == Success(cached.value) && !fetched && Unchanged())
      && (miss && fetch.None? ==> r == Success(JNull) && !fetched && Unchanged())
      && (miss && fetch.Some? && fetch.value.Failure? ==>
            r == Failure(FetchFailed(fetch.value.error)) && fetched && Unchanged())
      && (miss && fetch.Some? && fetch.value.Success? ==>
            && r == Success(fetch.value.value) && fetched
            && service.model.rows == Store(old(service.model.rows), key, Encode(fetch.value.value), expiration, now)
            && flushes == old(flushes) + FlushCount(isWeb) && written == old(written))
    }

    method GetData(key: string, fetch: Option<Result<Json, string>>, expiration: Option<int>, now: int)
      returns (r: Result<Json, ControllerError>, fetched: bool)
      modifies this, service.model
      ensures GetDataSpec(key, fetch, expiration, now, r, fetched)
    {
      fetched := false;
      var cached := service.Get(key, now);
      if cached.Failure? {
        r := Failure(Malformed(cached.error));
        return;
      }
      if Truthy(cached.value) {
        r := Success(cached.value);
        return;
      }
      if fetch.None? {
        r := Success(JNull);
        return;
      }
      fetched := true;
      var outcome := fetch.value;
      if outcome.Failure? {
        r := Failure(FetchFailed(outcome.error));
        return;
      }
      service.Set(key, outcome.value, expiration, now);
      if isWeb {
        flushes := flushes + 1;
      }
      r := Success(outcome.value);
    }

    method InvalidateCache(key: string)
      modifies service.model
      ensures service.model.rows == old(service.model.rows) - {key}
    {
      service.Remove(key);
    }

    /** Always fetches and overwrites the entry, live or not; no flush follows. */
    method RefreshCache(key: string, fetch: Result<Json, string>, expiration: Option<int>, now: int)
      returns (r: Result<Json, ControllerError>)
      modifies service.model
      ensures fetch.Failure? ==> r == Failure(FetchFailed(fetch.error)) && service.model.rows == old(service.model.rows)
      ensures fetch.Success? ==>
        r == Success(fetch.value) && service.model.rows == Store(old(service.model.rows), key, Encode(fetch.value), expiration, now)
    {
      if fetch.Failure? {
        r := Failure(FetchFailed(fetch.error));
        return;
      }
      service.Set(key, fetch.value, expiration, now);
      r := Success(fetch.value);
    }

    method Set(key: string, value: Json, expiration: Option<int>, now: int)
      modifies this, service.model
      ensures service.model.rows == Store(old(service.model.rows), key, Encode(value), expiration, now)
      ensures flushes == old(flushes) + FlushCount(isWeb) && written == old(written)
    {
      service.Set(key, value, expiration, now);
      if isWeb {
        flushes := flushes + 1;
      }
    }

    /** Hands `data` to the write function; the cache is not touched whatever the write does. */
    method WriteToBackend(key: string, data: Json, outcome: Result<(), string>) returns (r: Result<(), string>)
      modifies this
      ensures r == outcome && written == old(written) + [data] && flushes == old(flushes)
      ensures service.model.rows == old(service.model.rows)
    {
      written := written + [data];
      r := outcome;
    }

    method ClearCache()
      modifies this, service.model
      ensures service.model.rows == map[]
      ensures flushes == old(flushes) + FlushCount(isWeb) && written == old(written)
    {
      service.Clear();
      if isWeb {
        flushes := flushes + 1;
      }
    }
  }

  /** A second `getData` right after a successful fetch is a hit when the value is truthy and still live. */
  lemma FetchedValueIsHitLater(rows: Table, key: string, v: Json, expiration: Option<int>, now: int, t: int)
    requires Truthy(v)
    requires expiration.None? || expiration.value == 0 || t < now + expiration.value
    ensures var cached := DecodeStored(Lookup(Store(rows, key, Encode(v), expiration, now), key, t));
      cached == Success(v) && Truthy(cached.value)
  {
    GetAfterSet(rows, key, v, expiration, now, t);
  }

  /**
   * A stored falsy value (null, false, 0, "") reads back but counts as a miss; with a negative
   * time to live the row has already expired and reads as null, a miss as well.
   */
  lemma FalsyValueIsMiss(rows: Table, key: string, v: Json, expiration: Option<int>, now: int)
    requires !Truthy(v)
    ensures var cached := DecodeStored(Lookup(Store(rows, key, Encode(v), expiration, now), key, now));
      cached.Success? && !Truthy(cached.value)
  {
    if expiration.None? || expiration.value >= 0 {
      GetAfterSet(rows, key, v, expiration, now, now);
    } else {
      GetAfterExpiry(rows, key, v, expiration, now, now);
    }
  }
}
