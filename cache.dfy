/** The in-memory cache in front of the NWS API: each key maps to a value and
    an expiry instant; an expired entry is dropped lazily when it is read.
    The monotonic clock is the parameter `now` of every operation. */
module NwsCache {
  import opened Wrappers

  /** `settings.cache_ttl_seconds`, the default lifetime of an entry. */
  const DefaultTtlSeconds: int := 300

  /** `ttl_seconds or settings.cache_ttl_seconds`: `None` and `0` are falsy and
      select the default; any other integer, negative ones included, is kept. */
  function EffectiveTtl(ttlSeconds: Option<int>): (ttl: int)
    ensures ttl != 0
    ensures ttlSeconds == None || ttlSeconds == Some(0) ==> ttl == DefaultTtlSeconds
    ensures ttlSeconds.Some? && ttlSeconds.value != 0 ==> ttl == ttlSeconds.value
  {
    match ttlSeconds
    case Some(t) => if t != 0 then t else DefaultTtlSeconds
    case None => DefaultTtlSeconds
  }

  datatype Entry<V> = Entry(value: V, expires: real)

  type Store<V> = map<string, Entry<V>>

  /** What `get(key)` returns at time `now`, and the store it leaves behind. */
  function Lookup<V>(store: Store<V>, key: string, now: real): (r: (Option<V>, Store<V>))
    ensures r.0.Some? <==> key in store && now <= store[key].expires
    ensures r.0.Some? ==> r.0.value == store[key].value
    ensures key in r.1 <==> r.0.Some?
    ensures forall k :: k in r.1 ==> k in store && r.1[k] == store[k]
  {
    if key !in store then (None, store)
    else if now > store[key].expires then (None, store - {key})
    else (Some(store[key].value), store)
  }

  /** The store after `set(key, value)` at time `now` with lifetime `ttl`. */
  function Put<V>(store: Store<V>, key: string, value: V, now: real, ttl: int): (r: Store<V>)
    ensures key in r && r[key].value == value && r[key].expires == now + ttl as real
    ensures r.Keys == store.Keys + {key}
  {
    store[key := Entry(value, now + ttl as real)]
  }

  class TTLCache<V> {
    const ttl: int
    var store: Store<V>

    constructor (ttlSeconds: Option<int>)
      ensures ttl == EffectiveTtl(ttlSeconds) && store == map[]
    {
      ttl := EffectiveTtl(ttlSeconds);
      store := map[];
    }

    /** `get`: the live value for `key`, deleting the entry if it has expired. */
    method Get(key: string, now: real) returns (r: Option<V>)
      modifies this
      ensures (r, store) == Lookup(old(store), key, now)
      ensures key !in old(store) ==> r == None && store == old(store)
      ensures key in old(store) && now > old(store)[key].expires ==> r == None && store == old(store) - {key}
      ensures key in old(store) && now <= old(store)[key].expires ==>
                r == Some(old(store)[key].value) && store == old(store)
    {
      if key !in store {
        return None;
      }
      var entry := store[key];
      if now > entry.expires {
        store := store - {key};
        return None;
      }
      return Some(entry.value);
    }

    /** `set`: stores `value` under `key`, expiring `ttl` seconds from `now`. */
    method Set(key: string, value: V, now: real)
      modifies this
      ensures store == Put(old(store), key, value, now, ttl)
      ensures key in store && store[key] == Entry(value, now + ttl as real)
      ensures forall k :: k != key ==> (k in store <==> k in old(store))
      ensures forall k :: k != key && k in store ==> store[k] == old(store)[k]
    {
      store := store[key := Entry(value, now + ttl as real)];
    }
  }

  /** A read at or before `t + ttl` returns what `set` stored at time `t`; at
      exactly the expiry instant the value is still returned. */
  lemma GetAfterSet<V>(store: Store<V>, key: string, value: V, t: real, ttl: int, now: real)
    requires now <= t + ttl as real
    ensures Lookup(Put(store, key, value, t, ttl), key, now) == (Some(value), Put(store, key, value, t, ttl))
  {
  }

  /** A read after `t + ttl` returns nothing and removes the key. */
  lemma GetAfterExpiry<V>(store: Store<V>, key: string, value: V, t: real, ttl: int, now: real)
    requires now > t + ttl as real
    ensures Lookup(Put(store, key, value, t, ttl), key, now) == (None, store - {key})
  {
    assert Put(store, key, value, t, ttl) - {key} == store - {key};
  }

  /** `get` and `set` leave every other key's entry as it was. */
  lemma OtherKeysUntouched<V>(store: Store<V>, key: string, other: string, value: V, now: real, ttl: int)
    requires other != key
    ensures other in Lookup(store, key, now).1 <==> other in store
    ensures other in store ==> Lookup(store, key, now).1[other] == store[other]
    ensures other in Put(store, key, value, now, ttl) <==> other in store
    ensures other in store ==> Put(store, key, value, now, ttl)[other] == store[other]
  {
  }

  /** A second `set` replaces the first one's value and expiry. */
  lemma SetOverwrites<V>(store: Store<V>, key: string, v1: V, t1: real, v2: V, t2: real, ttl: int)
    ensures Put(Put(store, key, v1, t1, ttl), key, v2, t2, ttl) == Put(store, key, v2, t2, ttl)
  {
  }
}
