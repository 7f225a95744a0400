/**
 * The module-level result cache of the provider (src/provider.js:4-6): a NodeCache with a
 * standard time-to-live of 600 seconds. Times are milliseconds since the epoch (never
 * negative), passed in by the caller in place of `Date.now()`.
 */
module ResultCache {
  import opened Wrappers

  /** `stdTTL: 600`, in seconds. */
  const STD_TTL: nat := 600

  /** A stored value and the time it expires at; `0` means it never expires. */
  datatype Entry<V> = Entry(value: V, expires: int)

  /** The expiry NodeCache gives an entry stored at `now`: `now + ttl * 1000`, or `0` for a zero ttl. */
  function ExpiryAt(now: nat, ttlSeconds: nat): (t: int)
    ensures ttlSeconds == 0 ==> t == 0
    ensures ttlSeconds > 0 ==> t > now
  {
    if ttlSeconds == 0 then 0 else now + ttlSeconds * 1000
  }

  /** An entry is still valid at `now` unless its expiry is set and already passed. */
  predicate LiveAt<V>(e: Entry<V>, now: int) {
    e.expires == 0 || now <= e.expires
  }

  /** What `get(key)` answers at `now` for the given entries. */
  function Answer<V>(entries: map<string, Entry<V>>, key: string, now: int): Option<V> {
    if key in entries && LiveAt(entries[key], now) then Some(entries[key].value) else None
  }

  /** The entries after `get(key)` at `now`: an expired entry for `key` is deleted. */
  function AfterGet<V>(entries: map<string, Entry<V>>, key: string, now: int): (r: map<string, Entry<V>>)
    ensures r.Keys <= entries.Keys
    ensures forall k | k in r :: r[k] == entries[k]
    ensures key in entries && !LiveAt(entries[key], now) ==> key !in r
    ensures forall k | k in entries && (k != key || LiveAt(entries[k], now)) :: k in r
  {
    if key in entries && !LiveAt(entries[key], now) then entries - {key} else entries
  }

  /** A NodeCache holding values of type `V`. */
  class Cache<V> {
    const ttlSeconds: nat
    var entries: map<string, Entry<V>>

    constructor(ttl: nat)
      ensures ttlSeconds == ttl && entries == map[]
    {
      ttlSeconds := ttl;
      entries := map[];
    }

    /** `get(key)`: the value when it is still valid; an expired entry is deleted on the way. */
    method Get(key: string, now: int) returns (r: Option<V>)
      modifies this
      ensures r == Answer(old(entries), key, now)
      ensures entries == AfterGet(old(entries), key, now)
    {
      r := None;
      if key in entries {
        var e := entries[key];
        if LiveAt(e, now) {
          r := Some(e.value);
        } else {
          entries := entries - {key};
        }
      }
    }

    /** `set(key, value)` with the standard ttl: the entry is replaced, the others stay. */
    method Set(key: string, value: V, now: nat)
      modifies this
      ensures entries == old(entries)[key := Entry(value, ExpiryAt(now, ttlSeconds))]
    {
      entries := entries[key := Entry(value, ExpiryAt(now, ttlSeconds))];
    }
  }

  /**
   * A value stored at `now` is returned by `get` at any `later` time up to `now + ttl`
   * seconds, and never again after that (for a non-zero ttl).
   */
  lemma StoredValueLivesForTtl<V>(entries: map<string, Entry<V>>, key: string, value: V, now: nat, ttl: nat, later: int)
    ensures var stored := entries[key := Entry(value, ExpiryAt(now, ttl))];
      (ttl == 0 || later <= now + ttl * 1000 ==> Answer(stored, key, later) == Some(value)) &&
      (ttl > 0 && later > now + ttl * 1000 ==> Answer(stored, key, later) == None)
  {
  }

  /** Storing or getting one key leaves the answers for every other key alone. */
  lemma OtherKeysUnaffected<V>(entries: map<string, Entry<V>>, key: string, other: string, value: V, now: nat, ttl: nat, t: int)
    requires other != key
    ensures Answer(entries[key := Entry(value, ExpiryAt(now, ttl))], other, t) == Answer(entries, other, t)
    ensures Answer(AfterGet(entries, key, now), other, t) == Answer(entries, other, t)
  {
  }

  /** `get` does not change what a later `get` at the same time answers: it only drops what is already dead. */
  lemma GetKeepsAnswer<V>(entries: map<string, Entry<V>>, key: string, now: int, k: string)
    ensures Answer(AfterGet(entries, key, now), k, now) == Answer(entries, k, now)
  {
  }

  /** The provider's cache keeps a result for ten minutes: 600 000 ms. */
  lemma StandardTtlIsTenMinutes(now: nat)
    ensures ExpiryAt(now, STD_TTL) == now + 600000
  {
  }
}
