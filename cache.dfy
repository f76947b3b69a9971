/**
 * The time-windowed response cache (backend/src/services/cacheService.ts over
 * the collection of backend/src/models/cache.ts).
 *
 * The document store is a map from key to entry: the schema's unique index on
 * `key` is what makes it a map. `Date.now()` is the parameter `now` (in
 * milliseconds) and a failing store is the parameter `backendUp == false`: the
 * source catches every store error and turns it into a miss or a no-op.
 */
module Cache {
  import opened Wrappers

  /** `ONE_HOUR_MS`. */
  const ONE_HOUR_MS: int := 60 * 60 * 1000

  /** One cache document: the payload and the time it was saved. */
  datatype Entry<T> = Entry(data: T, savedAt: int)

  /** The value `getCached` sees against a working store. */
  function Lookup<T>(entries: map<string, Entry<T>>, key: string, now: int): (r: Option<T>)
    ensures r.Some? <==> key in entries && now - entries[key].savedAt < ONE_HOUR_MS
    ensures r.Some? ==> r.value == entries[key].data
  {
    if key !in entries then None
    else if now - entries[key].savedAt >= ONE_HOUR_MS then None
    else Some(entries[key].data)
  }

  class CacheStore<T> {
    /** The stored documents, at most one per key. */
    var entries: map<string, Entry<T>>

    constructor ()
      ensures entries == map[]
    {
      entries := map[];
    }

    /** `getCached(key)`: the data saved less than an hour before `now`, or nothing. */
    method GetCached(key: string, now: int, backendUp: bool) returns (r: Option<T>)
      ensures r == if backendUp then Lookup(entries, key, now) else None
    {
      if !backendUp {
        return None;
      }
      if key !in entries {
        return None;
      }
      var age := now - entries[key].savedAt;
      if age >= ONE_HOUR_MS {
        return None;
      }
      return Some(entries[key].data);
    }

    /** `setCached(key, data)`: upsert stamped with `now`; a store failure changes nothing. */
    method SetCached(key: string, data: T, now: int, backendUp: bool)
      modifies this
      ensures backendUp ==> entries == old(entries)[key := Entry(data, now)]
      ensures !backendUp ==> entries == old(entries)
    {
      if backendUp {
        entries := entries[key := Entry(data, now)];
      }
    }
  }

  /** A key that was never stored is a miss. */
  lemma MissingKeyMisses<T>(entries: map<string, Entry<T>>, key: string, now: int)
    requires key !in entries
    ensures Lookup(entries, key, now) == None
  {
  }

  /** An entry exactly one hour old is already stale; one millisecond younger is still fresh. */
  lemma FreshnessBoundary<T>(entries: map<string, Entry<T>>, key: string)
    requires key in entries
    ensures Lookup(entries, key, entries[key].savedAt + ONE_HOUR_MS) == None
    ensures Lookup(entries, key, entries[key].savedAt + ONE_HOUR_MS - 1) == Some(entries[key].data)
  {
  }

  /** A value set at `t` reads back at every `now` before `t + ONE_HOUR_MS`, and at none after. */
  lemma SetThenGet<T>(entries: map<string, Entry<T>>, key: string, data: T, t: int, now: int)
    ensures Lookup(entries[key := Entry(data, t)], key, now) == if now < t + ONE_HOUR_MS then Some(data) else None
  {
  }

  /** The upsert leaves every other key's lookup as it was. */
  lemma SetLeavesOtherKeys<T>(entries: map<string, Entry<T>>, key: string, other: string, data: T, t: int, now: int)
    requires other != key
    ensures Lookup(entries[key := Entry(data, t)], other, now) == Lookup(entries, other, now)
  {
  }

  /** Setting a key again replaces the first entry: the later data and time win. */
  lemma SetTwiceKeepsLatest<T>(entries: map<string, Entry<T>>, key: string, d1: T, t1: int, d2: T, t2: int)
    ensures entries[key := Entry(d1, t1)][key := Entry(d2, t2)] == entries[key := Entry(d2, t2)]
  {
  }

  /** The set-then-get round trip, through the store object. */
  method RoundTrip<T>(store: CacheStore<T>, key: string, data: T, t: int, now: int) returns (r: Option<T>)
    requires now < t + ONE_HOUR_MS
    modifies store
    ensures r == Some(data)
    ensures store.entries == old(store.entries)[key := Entry(data, t)]
  {
    store.SetCached(key, data, t, true);
    r := store.GetCached(key, now, true);
  }
}
