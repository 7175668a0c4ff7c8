/**
 * The typed layer over the cache table: values are stored as their JSON text and parsed
 * back on read. A read of a missing, expired or empty entry gives JSON null; a stored text
 * that does not parse is an error, where `JSON.parse` throws.
 */
module CacheService {
  import opened Wrappers
  import opened Json
  import opened CacheModel

  datatype ReadError = MalformedJson(stored: string)

  /** What `get` makes of the table's answer: null for nothing or "", else the parsed text. */
  function DecodeStored(stored: Option<string>): (r: Result<Json, ReadError>)
    ensures stored.None? || stored.value == "" ==> r == Success(JNull)
    ensures stored.Some? && stored.value != "" ==>
      (r.Success? <==> Decode(stored.value).Some?) && (r.Success? ==> Decode(stored.value) == Some(r.value))
    ensures r.Failure? ==> stored.Some? && r.error == MalformedJson(stored.value)
  {
    if stored.None? || stored.value == "" then Success(JNull)
    else match Decode(stored.value)
      case None => Failure(MalformedJson(stored.value))
      case Some(v) => Success(v)
  }

  class CacheService {
    const model: CacheModel

    constructor(model: CacheModel)
      ensures this.model == model
    {
      this.model := model;
    }

    method GetExpiration(key: string) returns (e: Option<int>)
      ensures e.Some? <==> key in model.rows && model.rows[key].expiration.Some?
      ensures e.Some? ==> e == model.rows[key].expiration
    {
      e := model.GetExpiration(key);
    }

    method Get(key: string, now: int) returns (r: Result<Json, ReadError>)
      ensures r == DecodeStored(Lookup(model.rows, key, now))
    {
      var stored := model.Get(key, now);
      if stored.None? || stored.value == "" {
        r := Success(JNull);
      } else {
        var parsed := Decode(stored.value);
        r := if parsed.Some? then Success(parsed.value) else Failure(MalformedJson(stored.value));
      }
    }

    /** Stores the JSON text of `value`; the relative expiration is passed through unchanged. */
    method Set(key: string, value: Json, relative: Option<int>, now: int)
      modifies model
      ensures model.rows == Store(old(model.rows), key, Encode(value), relative, now)
    {
      model.Set(key, Encode(value), relative, now);
    }

    method Remove(key: string)
      modifies model
      ensures model.rows == old(model.rows) - {key}
    {
      model.Remove(key);
    }

    method Clear()
      modifies model
      ensures model.rows == map[]
    {
      model.Clear();
    }
  }

  /** Reading a key back while its row is live gives the value that was set. */
  lemma GetAfterSet(rows: Table, key: string, v: Json, relative: Option<int>, now: int, t: int)
    requires relative.None? || relative.value == 0 || t < now + relative.value
    ensures DecodeStored(Lookup(Store(rows, key, Encode(v), relative, now), key, t)) == Success(v)
  {
    EncodeNonEmpty(v);
    DecodeEncode(v);
  }

  /** Once a row has expired, reading it gives null rather than the old value. */
  lemma GetAfterExpiry(rows: Table, key: string, v: Json, relative: Option<int>, now: int, t: int)
    requires relative.Some? && relative.value != 0 && t >= now + relative.value
    ensures DecodeStored(Lookup(Store(rows, key, Encode(v), relative, now), key, t)) == Success(JNull)
  {
  }

  /** Whatever the service itself wrote always parses: the error path needs a text written by someone else. */
  lemma WrittenTablesParse(rows: Table, key: string, v: Json, relative: Option<int>, now: int, other: string, t: int)
    requires forall k :: k in rows ==> exists w: Json :: rows[k].value == Encode(w)
    ensures DecodeStored(Lookup(Store(rows, key, Encode(v), relative, now), other, t)).Success?
  {
    var rows' := Store(rows, key, Encode(v), relative, now);
    var stored := Lookup(rows', other, t);
    if stored.Some? {
      var w: Json := if other == key then v else var w' :| rows[other].value == Encode(w'); w';
      assert stored.value == Encode(w);
      DecodeEncode(w);
    }
  }
}
