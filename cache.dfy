/** The process-wide response cache: an interface with Get and Set only (no
    delete, so nothing is invalidated when a node is created), implemented
    either by a TTL cache or, when the configured duration is zero, by the
    no-op `noCache`. */
module Cache {
  import opened Wrappers
  import opened Bytes

  /** Default for CACHE_DURATION, in minutes. */
  const CacheDurationMinutes: int := 15

  /** How often the TTL cache's janitor sweeps expired entries, in minutes. */
  const JanitorMinutes: int := 10

  class Cache<V> {
    /** False for `noCache`. */
    const enabled: bool
    /** The default expiry of every entry, in minutes (TTL cache only). */
    const ttlMinutes: int
    var entries: map<Bytes, V>

    /** `noCache` holds nothing. */
    ghost predicate Valid()
      reads this
    {
      !enabled ==> entries == map[]
    }

    /** The selection made at start-up from the configured duration. */
    constructor Init(cacheDuration: int)
      ensures enabled <==> cacheDuration != 0
      ensures enabled ==> ttlMinutes == cacheDuration
      ensures entries == map[] && Valid()
    {
      enabled := cacheDuration != 0;
      ttlMinutes := if cacheDuration != 0 then cacheDuration else 0;
      entries := map[];
    }

    /** The entry under `k`, if any. */
    function Lookup(k: Bytes): Option<V>
      reads this
    {
      if k in entries then Some(entries[k]) else None
    }

    /** Get: `noCache` answers (nil, false) for every key. */
    method Get(k: Bytes) returns (r: Option<V>)
      requires Valid()
      ensures r == Lookup(k)
      ensures !enabled ==> r == None
    {
      if !enabled {
        r := None;
      } else {
        r := Lookup(k);
      }
    }

    /** Set with the default expiration: `noCache` drops the value. */
    method Set(k: Bytes, x: V)
      requires Valid()
      modifies this
      ensures Valid()
      ensures entries == if enabled then old(entries)[k := x] else old(entries)
    {
      if enabled {
        entries := entries[k := x];
      }
    }
  }

  /** With caching disabled, a value just set is not found. */
  method DisabledCacheForgets<V>(k: Bytes, x: V) returns (r: Option<V>)
    ensures r == None
  {
    var c := new Cache<V>.Init(0);
    c.Set(k, x);
    r := c.Get(k);
  }

  /** With caching enabled, a value just set is found under its key. */
  method EnabledCacheRemembers<V>(cacheDuration: int, k: Bytes, x: V) returns (r: Option<V>)
    requires cacheDuration != 0
    ensures r == Some(x)
  {
    var c := new Cache<V>.Init(cacheDuration);
    c.Set(k, x);
    r := c.Get(k);
  }
}
