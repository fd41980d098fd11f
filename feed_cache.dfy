/** The in-memory feed cache: one entry per key, stamped when it is stored, served
    while it is at most five minutes old. Expired entries are not evicted on read; they
    stay until overwritten or until the whole cache is cleared. The clock is a
    parameter. */
module FeedCache {
  import opened Types

  /** Five minutes, in milliseconds. */
  const CacheTtl: int := 300000

  datatype CacheEntry = CacheEntry(articles: seq<Article>, timestamp: int, sources: seq<SourceStatus>)

  /** An entry is served when its age does not exceed the TTL. */
  predicate IsFresh(entry: CacheEntry, now: int)
  {
    !(now - entry.timestamp > CacheTtl)
  }

  /** getCachedFeed over the map as it stands. */
  function Lookup(entries: map<string, CacheEntry>, key: string, now: int): (r: Option<CacheEntry>)
    ensures r.Some? <==> key in entries && now - entries[key].timestamp <= CacheTtl
    ensures r.Some? ==> r.value == entries[key]
  {
    if key !in entries then None
    else if !IsFresh(entries[key], now) then None
    else Some(entries[key])
  }

  /** getCacheAge over the map as it stands: the age even of an expired entry. */
  function Age(entries: map<string, CacheEntry>, key: string, now: int): (r: Option<int>)
    ensures r.Some? <==> key in entries
    ensures r.Some? ==> entries[key].timestamp + r.value == now
  {
    if key in entries then Some(now - entries[key].timestamp) else None
  }

  class Cache {
    var entries: map<string, CacheEntry>

    constructor ()
      ensures entries == map[]
    {
      entries := map[];
    }

    method GetCachedFeed(key: string, now: int) returns (r: Option<CacheEntry>)
      ensures r == Lookup(entries, key, now)
    {
      if key !in entries {
        return None;
      }
      var entry := entries[key];
      var isExpired := now - entry.timestamp > CacheTtl;
      if isExpired {
        return None;
      }
      return Some(entry);
    }

    method SetCachedFeed(key: string, articles: seq<Article>, sources: seq<SourceStatus>, now: int)
      modifies this
      ensures entries == old(entries)[key := CacheEntry(articles, now, sources)]
    {
      entries := entries[key := CacheEntry(articles, now, sources)];
    }

    method ClearCache()
      modifies this
      ensures entries == map[]
    {
      entries := map[];
    }

    method GetCacheAge(key: string, now: int) returns (r: Option<int>)
      ensures r == Age(entries, key, now)
    {
      if key !in entries {
        return None;
      }
      return Some(now - entries[key].timestamp);
    }
  }

  // ---------------------------------------------------------------- properties

  /** Exactly five minutes old is still fresh; a millisecond more is not. */
  lemma TtlBoundary(e: CacheEntry)
    ensures IsFresh(e, e.timestamp + 300000)
    ensures !IsFresh(e, e.timestamp + 300001)
  {
  }

  /** A key never set, or set and then cleared, is a miss. */
  lemma ClearedCacheMisses(key: string, now: int)
    ensures Lookup(map[], key, now) == None
    ensures Age(map[], key, now) == None
  {
  }

  /** A set followed by a get at the same instant returns what was stored. */
  lemma SetThenGet(entries: map<string, CacheEntry>, key: string, articles: seq<Article>,
                   sources: seq<SourceStatus>, now: int)
    ensures Lookup(entries[key := CacheEntry(articles, now, sources)], key, now)
              == Some(CacheEntry(articles, now, sources))
  {
  }

  /** A set leaves every other key's answers as they were. */
  lemma SetLeavesOtherKeys(entries: map<string, CacheEntry>, key: string, other: string,
                           e: CacheEntry, now: int)
    requires other != key
    ensures Lookup(entries[key := e], other, now) == Lookup(entries, other, now)
    ensures Age(entries[key := e], other, now) == Age(entries, other, now)
  {
  }

  /** Reads do not evict and the clock only moves on: once a read misses, every later
      read of the same map misses too. */
  lemma MissStaysMiss(entries: map<string, CacheEntry>, key: string, now: int, later: int)
    requires now <= later
    requires Lookup(entries, key, now) == None
    ensures Lookup(entries, key, later) == None
  {
  }

  /** A hit happens exactly when the age is defined and within the TTL. */
  lemma HitIffYoungEnough(entries: map<string, CacheEntry>, key: string, now: int)
    ensures Lookup(entries, key, now).Some? <==> Age(entries, key, now).Some? && Age(entries, key, now).value <= CacheTtl
  {
  }
}
