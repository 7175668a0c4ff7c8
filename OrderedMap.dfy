/**
 * A JavaScript `Map` as the statistics code uses it: entries kept in the order their keys were
 * first set, `get` answering the entry of the key, and `set` replacing the value in place for a
 * key already present and appending an entry otherwise.
 */
module OrderedMap {
  import opened Wrappers

  /** The keys of the entries, in insertion order. */
  function Keys<K, V>(entries: seq<(K, V)>): (r: seq<K>)
    ensures |r| == |entries|
    ensures forall i :: 0 <= i < |entries| ==> r[i] == entries[i].0
  {
    if |entries| == 0 then [] else [entries[0].0] + Keys(entries[1..])
  }

  /** No key has two entries. */
  predicate DistinctKeys<K(==), V>(entries: seq<(K, V)>) {
    forall i, j :: 0 <= i < j < |entries| ==> entries[i].0 != entries[j].0
  }

  /** `get`: the value of the first entry for `k`, if any. */
  function Get<K(==), V>(entries: seq<(K, V)>, k: K): Option<V> {
    if |entries| == 0 then None
    else if entries[0].0 == k then Some(entries[0].1)
    else Get(entries[1..], k)
  }

  /** `get` answers nothing exactly when no entry has the key, and otherwise the value of one that has. */
  lemma {:induction false} GetFound<K, V>(entries: seq<(K, V)>, k: K)
    ensures Get(entries, k).None? <==> forall i :: 0 <= i < |entries| ==> entries[i].0 != k
    ensures Get(entries, k).Some? ==> exists i :: 0 <= i < |entries| && entries[i] == (k, Get(entries, k).value)
  {
    if |entries| > 0 && entries[0].0 != k {
      GetFound(entries[1..], k);
      assert forall i :: 1 <= i < |entries| ==> entries[i] == entries[1..][i - 1];
      if Get(entries, k).Some? {
        var i :| 0 <= i < |entries[1..]| && entries[1..][i] == (k, Get(entries, k).value);
        assert entries[i + 1] == entries[1..][i];
      }
    }
  }

  /** `set`: the value of an existing key is replaced where it stands; a new key is appended. */
  function Set<K(==), V>(entries: seq<(K, V)>, k: K, v: V): (r: seq<(K, V)>)
  {
    if |entries| == 0 then [(k, v)]
    else if entries[0].0 == k then [(k, v)] + entries[1..]
    else [entries[0]] + Set(entries[1..], k, v)
  }

  /** After `set(k, v)`, `get(k)` answers `v`. */
  lemma {:induction false} SetThenGet<K, V>(entries: seq<(K, V)>, k: K, v: V)
    ensures Get(Set(entries, k, v), k) == Some(v)
  {
    if |entries| > 0 && entries[0].0 != k {
      SetThenGet(entries[1..], k, v);
      assert Set(entries, k, v)[1..] == Set(entries[1..], k, v);
    }
  }

  /** `set(k, v)` leaves every other key answering as before. */
  lemma {:induction false} SetKeepsOthers<K, V>(entries: seq<(K, V)>, k: K, v: V, other: K)
    requires other != k
    ensures Get(Set(entries, k, v), other) == Get(entries, other)
  {
    if |entries| > 0 {
      var r := Set(entries, k, v);
      if entries[0].0 != k {
        SetKeepsOthers(entries[1..], k, v, other);
        assert r[1..] == Set(entries[1..], k, v);
      } else {
        assert r[1..] == entries[1..];
      }
    }
  }

  /** The keys keep their order, and `k` is appended exactly when it was new. */
  lemma {:induction false} SetKeys<K, V>(entries: seq<(K, V)>, k: K, v: V)
    ensures Get(entries, k).Some? ==> Keys(Set(entries, k, v)) == Keys(entries)
    ensures Get(entries, k).None? ==> Keys(Set(entries, k, v)) == Keys(entries) + [k]
  {
    if |entries| > 0 {
      var r := Set(entries, k, v);
      if entries[0].0 != k {
        SetKeys(entries[1..], k, v);
        assert r[1..] == Set(entries[1..], k, v);
        assert Get(entries, k) == Get(entries[1..], k);
        assert Keys(r) == [entries[0].0] + Keys(r[1..]);
      } else {
        assert r[1..] == entries[1..];
      }
    }
  }

  /** `set` keeps the keys distinct. */
  lemma SetKeepsDistinct<K, V>(entries: seq<(K, V)>, k: K, v: V)
    requires DistinctKeys(entries)
    ensures DistinctKeys(Set(entries, k, v))
  {
    var r := Set(entries, k, v);
    SetKeys(entries, k, v);
    forall i, j | 0 <= i < j < |r| ensures r[i].0 != r[j].0 {
      assert Keys(r)[i] == r[i].0 && Keys(r)[j] == r[j].0;
      if j < |entries| {
        assert Keys(entries)[i] == entries[i].0 && Keys(entries)[j] == entries[j].0;
      } else {
        assert Get(entries, k).None?;
        assert Keys(entries)[i] == entries[i].0;
      }
    }
  }

  /** With distinct keys, `get` of an entry's key answers that entry's value. */
  lemma GetOfEntry<K, V>(entries: seq<(K, V)>, i: nat)
    requires DistinctKeys(entries) && i < |entries|
    ensures Get(entries, entries[i].0) == Some(entries[i].1)
  {
    var k := entries[i].0;
    GetFound(entries, k);
    var r := Get(entries, k);
    var j :| 0 <= j < |entries| && entries[j] == (k, r.value);
    assert j == i;
  }
}
