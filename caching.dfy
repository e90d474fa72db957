/**
 * The in-process memory cache, reduced to what the inventory listing uses:
 * entries under string keys, each with an absolute expiry instant. An entry
 * whose expiry is at or before the current instant is expired: a lookup
 * evicts it and reports a miss.
 */
module Caching {
  import opened Models
  import opened Contracts

  /** A cached inventory listing and the instant it stops being served. */
  datatype CacheEntry = CacheEntry(value: seq<InventoryReadDto>, absoluteExpiration: Instant)

  /** An entry under `key` that has not expired at `now`. */
  predicate IsLive(entries: map<string, CacheEntry>, key: string, now: Instant)
  {
    key in entries && now < entries[key].absoluteExpiration
  }

  class MemoryCache {
    var entries: map<string, CacheEntry>

    constructor ()
      ensures entries == map[]
    {
      entries := map[];
    }

    /** `TryGetValue`: the value of a live entry; an expired entry is evicted. */
    method TryGetValue(key: string, now: Instant) returns (found: bool, value: seq<InventoryReadDto>)
      modifies this
      ensures found <==> IsLive(old(entries), key, now)
      ensures found ==> value == old(entries)[key].value && entries == old(entries)
      ensures !found ==> entries == old(entries) - {key}
    {
      if IsLive(entries, key, now) {
        found, value := true, entries[key].value;
      } else {
        found, value := false, [];
        entries := entries - {key};
      }
    }

    /** `Set` with an absolute expiry: replaces any entry under `key`. */
    method Set(key: string, value: seq<InventoryReadDto>, absoluteExpiration: Instant)
      modifies this
      ensures entries == old(entries)[key := CacheEntry(value, absoluteExpiration)]
    {
      entries := entries[key := CacheEntry(value, absoluteExpiration)];
    }

    /** `Remove`: drops any entry under `key`, whatever its remaining lifetime. */
    method Remove(key: string)
      modifies this
      ensures entries == old(entries) - {key}
    {
      entries := entries - {key};
    }
  }
}
