/** Application settings kept in the cache under their own keys, with no expiration. */
module AppConfigService {
  import opened Wrappers
  import opened Json
  import opened CacheModel
  import opened CacheService

  class AppConfigService {
    const service: CacheService

    constructor(service: CacheService)
      ensures this.service == service
    {
      this.service := service;
    }

    /** Stores the value under the key itself, with no prefix and no expiration. */
    method SetConfig(key: string, value: Json, now: int)
      modifies service.model
      ensures service.model.rows == Store(old(service.model.rows), key, Encode(value), None, now)
    {
      service.Set(key, value, None, now);
    }

    method GetConfig(key: string, now: int) returns (r: Result<Json, ReadError>)
      ensures r == DecodeStored(Lookup(service.model.rows, key, now))
    {
      r := service.Get(key, now);
    }

    method RemoveConfig(key: string)
      modifies service.model
      ensures service.model.rows == old(service.model.rows) - {key}
    {
      service.Remove(key);
    }
  }

  /** A setting stays readable at every later time until it is removed or the cache is cleared. */
  lemma ConfigNeverExpires(rows: Table, key: string, v: Json, now: int, t: int)
    ensures DecodeStored(Lookup(Store(rows, key, Encode(v), None, now), key, t)) == Success(v)
  {
    GetAfterSet(rows, key, v, None, now, t);
  }

  /** After `removeConfig(k)`, `getConfig(k)` gives null. */
  lemma RemovedConfigReadsNull(rows: Table, key: string, t: int)
    ensures DecodeStored(Lookup(rows - {key}, key, t)) == Success(JNull)
  {
  }
}
