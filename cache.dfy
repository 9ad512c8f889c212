/**
 * src/Cache.js: a key/value map whose entries carry the time they were
 * stored and a lifetime.  The clock (`Date.now()`) is a parameter `now`,
 * in milliseconds.
 */
module Cache {
  import opened Wrappers

  /** A lifetime in milliseconds, or `Infinity`. */
  datatype Duration = Finite(ms: int) | Infinite {
    predicate Positive() { Infinite? || ms > 0 }
  }

  datatype Entry<V> = Entry(time: int, duration: Duration, value: V)

  /** `time + duration < now`: the entry's lifetime has run out before `now`. */
  predicate Expired<V>(e: Entry<V>, now: int) {
    e.duration.Finite? && e.time + e.duration.ms < now
  }

  /** What `get` returns. */
  function Lookup<K, V>(m: map<K, Entry<V>>, key: K, now: int): (r: Option<V>)
    ensures r.Some? <==> key in m && !Expired(m[key], now)
    ensures r.Some? ==> r.value == m[key].value
  {
    if key in m && !Expired(m[key], now) then Some(m[key].value) else None
  }

  /** The map after `get`: an expired entry under `key` is deleted. */
  function AfterGet<K(!new), V>(m: map<K, Entry<V>>, key: K, now: int): (r: map<K, Entry<V>>)
    ensures forall k :: k != key ==> (k in r <==> k in m) && (k in r ==> r[k] == m[k])
    ensures key in r <==> key in m && !Expired(m[key], now)
    ensures key in r ==> r[key] == m[key]
  {
    if key in m && Expired(m[key], now) then m - {key} else m
  }

  /** The map after `set`: stored with the time `now` only when the lifetime is positive. */
  function Store<K, V>(m: map<K, Entry<V>>, key: K, value: V, duration: Duration, now: int): (r: map<K, Entry<V>>)
    ensures duration.Positive() ==> r == m[key := Entry(now, duration, value)]
    ensures !duration.Positive() ==> r == m
  {
    if duration.Positive() then m[key := Entry(now, duration, value)] else m
  }

  class Cache<K(==,!new), V> {
    var entries: map<K, Entry<V>>
    /** The lifetime used when `set` is given none (`Infinity` unless the constructor gets one). */
    const defaultDuration: Duration

    constructor(duration: Option<Duration>)
      ensures entries == map[]
      ensures defaultDuration == duration.GetOr(Infinite)
    {
      entries := map[];
      defaultDuration := duration.GetOr(Infinite);
    }

    method Get(key: K, now: int) returns (r: Option<V>)
      modifies this
      ensures r == Lookup(old(entries), key, now)
      ensures entries == AfterGet(old(entries), key, now)
    {
      if key in entries && Expired(entries[key], now) {
        entries := entries - {key};
        return None;
      }
      r := if key in entries then Some(entries[key].value) else None;
    }

    method Set(key: K, value: V, duration: Option<Duration>, now: int)
      modifies this
      ensures entries == Store(old(entries), key, value, duration.GetOr(defaultDuration), now)
    {
      var d := duration.GetOr(defaultDuration);
      if d.Positive() {
        entries := entries[key := Entry(now, d, value)];
      }
    }
  }

  /**
   * A value stored with a positive lifetime `d` at time `t` is returned at
   * every `now` with `t <= now <= t + d` (the boundary included) and at no
   * later time.
   */
  lemma SetThenGet<K, V>(m: map<K, Entry<V>>, key: K, value: V, d: Duration, t: int, now: int)
    requires d.Positive()
    ensures Lookup(Store(m, key, value, d, t), key, now) ==
      (if d.Finite? && now > t + d.ms then None else Some(value))
  {
  }

  /** A non-positive lifetime stores nothing: the previous entry, if any, stays. */
  lemma NonPositiveKeepsOld<K, V>(m: map<K, Entry<V>>, key: K, value: V, d: Duration, t: int, now: int)
    requires !d.Positive()
    ensures Lookup(Store(m, key, value, d, t), key, now) == Lookup(m, key, now)
  {
  }

  /** Reading a key never disturbs another key, and expiry is permanent. */
  lemma GetIsolatedAndMonotone<K(!new), V>(m: map<K, Entry<V>>, key: K, other: K, now: int, later: int)
    requires other != key && now <= later
    ensures Lookup(AfterGet(m, key, now), other, later) == Lookup(m, other, later)
    ensures Lookup(m, key, now).None? ==> Lookup(AfterGet(m, key, now), key, later).None?
    ensures Lookup(AfterGet(m, key, now), key, later) == Lookup(m, key, later)
  {
  }
}
