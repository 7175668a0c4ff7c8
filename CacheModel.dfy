/**
 * The local key/value cache table: one row per key holding the serialised value and an
 * absolute expiration time in milliseconds, or none for a row that never expires.
 * The clock is an explicit `now` argument.
 */
module CacheModel {
  import opened Wrappers

  datatype Row = Row(value: string, expiration: Option<int>)

  type Table = map<string, Row>

  /** A row is readable while its expiration is unset or strictly in the future. */
  predicate Live(row: Row, now: int) {
    row.expiration.None? || row.expiration.value > now
  }

  /**
   * The absolute expiration `set` stores for a relative one given at `now`: a missing or zero
   * relative expiration means the row never expires.
   */
  function AbsoluteExpiration(relative: Option<int>, now: int): (e: Option<int>)
    ensures e.None? <==> relative.None? || relative.value == 0
    ensures e.Some? ==> e.value - now == relative.value
  {
    if relative.Some? && relative.value != 0 then Some(now + relative.value) else None
  }

  /** What `get` returns: the stored value of a live row, `None` for a missing or expired one. */
  function Lookup(rows: Table, key: string, now: int): (r: Option<string>)
    ensures r.Some? <==> key in rows && Live(rows[key], now)
    ensures r.Some? ==> r.value == rows[key].value
  {
    if key in rows && Live(rows[key], now) then Some(rows[key].value) else None
  }

  /** The table after `INSERT OR REPLACE` of `key` at `now`. */
  function Store(rows: Table, key: string, value: string, relative: Option<int>, now: int): (t: Table)
    ensures key in t && t[key] == Row(value, AbsoluteExpiration(relative, now))
    ensures forall k :: k != key ==> (k in t <==> k in rows) && (k in rows ==> t[k] == rows[k])
  {
    rows[key := Row(value, AbsoluteExpiration(relative, now))]
  }

  class CacheModel {
    var rows: Table

    constructor()
      ensures rows == map[]
    {
      rows := map[];
    }

    /** The stored absolute expiration of `key`, whether or not it has already passed. */
    method GetExpiration(key: string) returns (e: Option<int>)
      ensures e.Some? <==> key in rows && rows[key].expiration.Some?
      ensures e.Some? ==> e == rows[key].expiration
    {
      if key in rows {
        e := rows[key].expiration;
      } else {
        e := None;
      }
    }

    method Get(key: string, now: int) returns (r: Option<string>)
      ensures r == Lookup(rows, key, now)
    {
      if key in rows && Live(rows[key], now) {
        r := Some(rows[key].value);
      } else {
        r := None;
      }
    }

    method Set(key: string, value: string, relative: Option<int>, now: int)
      modifies this
      ensures rows == Store(old(rows), key, value, relative, now)
    {
      var expiration := if relative.Some? && relative.value != 0 then Some(now + relative.value) else None;
      rows := rows[key := Row(value, expiration)];
    }

    method Remove(key: string)
      modifies this
      ensures rows == old(rows) - {key}
    {
      rows := rows - {key};
    }

    method Clear()
      modifies this
      ensures rows == map[]
    {
      rows := map[];
    }
  }

  /** A row written at `now` reads back as its value exactly until its absolute expiration. */
  lemma ReadAfterWrite(rows: Table, key: string, value: string, relative: Option<int>, now: int, t: int)
    ensures Lookup(Store(rows, key, value, relative, now), key, t) ==
      (if relative.None? || relative.value == 0 || t < now + relative.value then Some(value) else None)
  {
  }

  /** A write to one key leaves what every other key reads unchanged. */
  lemma WriteKeepsOtherKeys(rows: Table, key: string, value: string, relative: Option<int>, now: int, other: string, t: int)
    requires other != key
    ensures Lookup(Store(rows, key, value, relative, now), other, t) == Lookup(rows, other, t)
  {
  }

  /** `remove(k)` makes `k` read as absent and leaves every other key unchanged. */
  lemma RemoveOnlyKey(rows: Table, key: string, other: string, t: int)
    ensures Lookup(rows - {key}, other, t) == if other == key then None else Lookup(rows, other, t)
  {
  }

  /** Once a row's expiration is reached it stays unreadable at every later time. */
  lemma ExpiredStaysExpired(rows: Table, key: string, t: int, later: int)
    requires t <= later
    requires Lookup(rows, key, t).None?
    ensures Lookup(rows, key, later).None?
  {
  }

  /** A 100 ms entry written at 1000 is a hit at 1050 and a miss at 1100 and 1150. */
  lemma ShortTtlExample(rows: Table)
    ensures Lookup(Store(rows, "k", "v", Some(100), 1000), "k", 1050) == Some("v")
    ensures Lookup(Store(rows, "k", "v", Some(100), 1000), "k", 1100) == None
    ensures Lookup(Store(rows, "k", "v", Some(100), 1000), "k", 1150) == None
  {
  }
}
