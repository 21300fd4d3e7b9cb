/**
 * `Utils.cache` of js/script.js: response bodies kept in the browser's
 * persistent key/value storage together with the time they were written.
 * Storage is a map from key to entry; the clock is an explicit `now`.
 */
module Cache {
  import opened Wrappers

  /** `CONFIG.cacheTTL`: fifteen minutes, in milliseconds. */
  const CacheTTL: int := 900000

  datatype Entry<D> = Entry(data: D, timestamp: int)

  /** `Utils.cache.get`: the stored entry, or `null` when the key is unset. */
  function Lookup<D>(items: map<string, Entry<D>>, key: string): (r: Option<Entry<D>>)
    ensures r.Some? <==> key in items
    ensures r.Some? ==> r.value == items[key]
  {
    if key in items then Some(items[key]) else None
  }

  /** `Utils.cache.isValid`: an entry exists and is younger than the TTL. */
  predicate IsValid<D>(cached: Option<Entry<D>>, now: int): (valid: bool)
    ensures valid ==> cached.Some?
    ensures cached.Some? ==> (valid <==> now < cached.value.timestamp + CacheTTL)
  {
    cached.Some? && now - cached.value.timestamp < CacheTTL
  }

  /** An entry written at `written` is served up to, and not including, `written + CacheTTL`. */
  lemma EntryLifetime<D>(data: D, written: int, now: int)
    ensures IsValid(Some(Entry(data, written)), now) <==> now < written + CacheTTL
  {
  }

  /** Writing an entry and reading it back within the TTL returns the data written. */
  lemma WriteThenRead<D>(items: map<string, Entry<D>>, key: string, data: D, now: int, later: int)
    requires later < now + CacheTTL
    ensures IsValid(Lookup(items[key := Entry(data, now)], key), later)
    ensures Lookup(items[key := Entry(data, now)], key).value.data == data
  {
  }

  /** The browser's `localStorage`, as far as the cache uses it. */
  class Store<D> {
    var items: map<string, Entry<D>>

    /** The storage as an earlier visit left it. */
    constructor (saved: map<string, Entry<D>>)
      ensures items == saved
    {
      items := saved;
    }

    /** `Utils.cache.get` on the live storage: `Lookup` applied to the current items. */
    function Get(key: string): (r: Option<Entry<D>>)
      reads this
      ensures r == Lookup(items, key)
    {
      Lookup(items, key)
    }

    /** `Utils.cache.set`: overwrites the key with the data stamped `now`. */
    method Set(key: string, data: D, now: int)
      modifies this
      ensures items == old(items)[key := Entry(data, now)]
    {
      items := items[key := Entry(data, now)];
    }
  }
}
