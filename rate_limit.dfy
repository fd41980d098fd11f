/** The fixed-window rate limiter: one counter per `identifier:endpoint` key, reset when
    a call arrives after the window's reset instant, plus the periodic sweep that drops
    expired counters. The clock is a parameter and the timer that runs the sweep is
    not modelled. */
module RateLimit {
  import opened Types

  datatype RateLimitEntry = RateLimitEntry(count: nat, resetTime: int)

  datatype RateLimitConfig = RateLimitConfig(windowMs: int, maxRequests: int)

  datatype RateLimitResult = RateLimitResult(allowed: bool, remaining: int, resetTime: int)

  /** RATE_LIMITS.ai */
  const AiLimit: RateLimitConfig := RateLimitConfig(60000, 10)

  /** RATE_LIMITS.preferences */
  const PreferencesLimit: RateLimitConfig := RateLimitConfig(60000, 30)

  /** The store key of a client on an endpoint. */
  function StoreKey(identifier: string, endpoint: string): string
  {
    identifier + ":" + endpoint
  }

  /** A window has expired strictly after its reset instant. */
  predicate Expired(entry: RateLimitEntry, now: int)
  {
    entry.resetTime < now
  }

  /** One call against the counter of its key: the new counter and the answer. */
  function Step(entry: Option<RateLimitEntry>, now: int, config: RateLimitConfig): (r: (RateLimitEntry, RateLimitResult))
    ensures r.1.resetTime == r.0.resetTime
    ensures r.0.count >= 1
    ensures entry.None? || Expired(entry.value, now) ==>
              r.0 == RateLimitEntry(1, now + config.windowMs)
              && r.1 == RateLimitResult(true, config.maxRequests - 1, now + config.windowMs)
    ensures entry.Some? && !Expired(entry.value, now) ==>
              r.0 == RateLimitEntry(entry.value.count + 1, entry.value.resetTime)
              && (r.1.allowed <==> r.0.count <= config.maxRequests)
              && r.1.remaining == (if r.1.allowed then config.maxRequests - r.0.count else 0)
  {
    if entry.None? || Expired(entry.value, now) then
      var window := RateLimitEntry(1, now + config.windowMs);
      (window, RateLimitResult(true, config.maxRequests - 1, window.resetTime))
    else
      var counted := RateLimitEntry(entry.value.count + 1, entry.value.resetTime);
      if counted.count > config.maxRequests then
        (counted, RateLimitResult(false, 0, counted.resetTime))
      else
        (counted, RateLimitResult(true, config.maxRequests - counted.count, counted.resetTime))
  }

  /** The store with every expired counter dropped. */
  function Sweep(store: map<string, RateLimitEntry>, now: int): (r: map<string, RateLimitEntry>)
    ensures forall k :: k in r <==> k in store && !Expired(store[k], now)
    ensures forall k :: k in r ==> r[k] == store[k]
  {
    map k | k in store && !Expired(store[k], now) :: store[k]
  }

  class RateLimiter {
    var store: map<string, RateLimitEntry>

    constructor ()
      ensures store == map[]
    {
      store := map[];
    }

    /** checkRateLimit: only the caller's own counter changes. */
    method CheckRateLimit(identifier: string, endpoint: string, config: RateLimitConfig, now: int)
      returns (r: RateLimitResult)
      modifies this
      ensures var key := StoreKey(identifier, endpoint);
              var step := Step(if key in old(store) then Some(old(store)[key]) else None, now, config);
              r == step.1 && store == old(store)[key := step.0]
    {
      var key := StoreKey(identifier, endpoint);
      if key !in store || store[key].resetTime < now {
        var entry := RateLimitEntry(1, now + config.windowMs);
        store := store[key := entry];
        return RateLimitResult(true, config.maxRequests - 1, entry.resetTime);
      }
      var entry := store[key];
      entry := entry.(count := entry.count + 1);
      store := store[key := entry];
      if entry.count > config.maxRequests {
        return RateLimitResult(false, 0, entry.resetTime);
      }
      return RateLimitResult(true, config.maxRequests - entry.count, entry.resetTime);
    }

    /** The body of the periodic sweep: visit every key and delete the expired ones. */
    method Cleanup(now: int)
      modifies this
      ensures store == Sweep(old(store), now)
    {
      var keys := store.Keys;
      ghost var visited: set<string> := {};
      PendingAll(store, now);
      while keys != {}
        invariant keys !! visited && keys + visited == old(store).Keys
        invariant store == Pending(old(store), now, keys)
        decreases keys
      {
        var key :| key in keys;
        PendingStep(old(store), now, keys, key);
        if store[key].resetTime < now {
          store := store - {key};
        }
        keys := keys - {key};
        visited := visited + {key};
      }
      PendingNone(old(store), now, keys);
    }
  }

  /** The store part-way through the sweep: the keys still to visit are kept as they were. */
  ghost function Pending(store: map<string, RateLimitEntry>, now: int, keys: set<string>): map<string, RateLimitEntry>
    requires keys <= store.Keys
  {
    Sweep(store, now) + map k | k in keys :: store[k]
  }

  /** Before the first visit nothing has been dropped yet. */
  lemma PendingAll(store: map<string, RateLimitEntry>, now: int)
    ensures Pending(store, now, store.Keys) == store
  {
  }

  /** After the last visit the sweep is complete. */
  lemma PendingNone(store: map<string, RateLimitEntry>, now: int, keys: set<string>)
    requires keys == {}
    ensures Pending(store, now, keys) == Sweep(store, now)
  {
  }

  /** Visiting one key drops it exactly when its counter has expired. */
  lemma PendingStep(store: map<string, RateLimitEntry>, now: int, keys: set<string>, key: string)
    requires keys <= store.Keys && key in keys
    ensures key in Pending(store, now, keys) && Pending(store, now, keys)[key] == store[key]
    ensures Expired(store[key], now) ==> Pending(store, now, keys) - {key} == Pending(store, now, keys - {key})
    ensures !Expired(store[key], now) ==> Pending(store, now, keys) == Pending(store, now, keys - {key})
  {
  }

  // ---------------------------------------------------------------- properties

  /** The answers to a run of calls on one key, starting from `entry`. */
  function Calls(entry: Option<RateLimitEntry>, nows: seq<int>, config: RateLimitConfig): seq<RateLimitResult>
    decreases |nows|
  {
    if nows == [] then []
    else
      var step := Step(entry, nows[0], config);
      [step.1] + Calls(Some(step.0), nows[1..], config)
  }

  function AllowedCount(results: seq<RateLimitResult>): nat
  {
    if results == [] then 0
    else (if results[0].allowed then 1 else 0) + AllowedCount(results[1..])
  }

  /** Inside one window, with `count` calls already counted, the calls still allowed are
      the ones that keep the count within the limit. */
  lemma {:induction false} WindowAllowsUpToLimit(count: nat, resetTime: int, nows: seq<int>, config: RateLimitConfig)
    requires forall i :: 0 <= i < |nows| ==> nows[i] <= resetTime
    ensures AllowedCount(Calls(Some(RateLimitEntry(count, resetTime)), nows, config))
              == if config.maxRequests <= count then 0 else Min(|nows|, config.maxRequests - count)
    decreases |nows|
  {
    if nows != [] {
      WindowAllowsUpToLimit(count + 1, resetTime, nows[1..], config);
    }
  }

  /** With a limit of at least one, a window opened by a call at `nows[0]` lets exactly
      `maxRequests` of the calls that arrive by its reset instant through. */
  lemma ExactlyMaxPerWindow(nows: seq<int>, config: RateLimitConfig)
    requires config.maxRequests >= 1
    requires nows != []
    requires forall i :: 0 <= i < |nows| ==> nows[i] <= nows[0] + config.windowMs
    ensures AllowedCount(Calls(None, nows, config)) == Min(|nows|, config.maxRequests)
  {
    var later := nows[1..];
    forall i | 0 <= i < |later|
      ensures later[i] <= nows[0] + config.windowMs
    {
      assert later[i] == nows[i + 1];
    }
    WindowAllowsUpToLimit(1, nows[0] + config.windowMs, later, config);
    FirstCallOpensWindow(nows, config);
  }

  /** The first call on a fresh key is allowed and opens a window with a count of one. */
  lemma FirstCallOpensWindow(nows: seq<int>, config: RateLimitConfig)
    requires nows != []
    ensures AllowedCount(Calls(None, nows, config))
              == 1 + AllowedCount(Calls(Some(RateLimitEntry(1, nows[0] + config.windowMs)), nows[1..], config))
  {
    var first := Step(None, nows[0], config);
    assert Calls(None, nows, config) == [first.1] + Calls(Some(first.0), nows[1..], config);
    assert ([first.1] + Calls(Some(first.0), nows[1..], config))[1..] == Calls(Some(first.0), nows[1..], config);
  }

  /** At the reset instant itself the old window still applies. */
  lemma ResetInstantBelongsToOldWindow(count: nat, resetTime: int, config: RateLimitConfig)
    ensures Step(Some(RateLimitEntry(count, resetTime)), resetTime, config).0 == RateLimitEntry(count + 1, resetTime)
  {
  }

  /** A rejected call still counts, and rejection is final for the window: every later
      call in it is rejected. */
  lemma RejectionLastsTheWindow(count: nat, resetTime: int, now: int, config: RateLimitConfig)
    requires now <= resetTime
    requires count >= config.maxRequests
    ensures !Step(Some(RateLimitEntry(count, resetTime)), now, config).1.allowed
    ensures Step(Some(RateLimitEntry(count, resetTime)), now, config).0.count == count + 1
  {
  }

  /** In the key of a colon-free identifier, the first colon ends the identifier. */
  lemma StoreKeyParts(identifier: string, endpoint: string)
    requires ':' !in identifier
    ensures var key := StoreKey(identifier, endpoint);
            && (forall j :: 0 <= j < |identifier| ==> key[j] != ':')
            && key[|identifier|] == ':'
            && key[..|identifier|] == identifier
            && key[|identifier| + 1..] == endpoint
  {
    var key := StoreKey(identifier, endpoint);
    assert key[..|identifier|] == identifier;
    forall j | 0 <= j < |identifier|
      ensures key[j] != ':'
    {
      assert key[j] == identifier[j];
    }
  }

  /** Different clients or endpoints never share a counter when the identifiers contain
      no colon. */
  lemma StoreKeysDiffer(id1: string, ep1: string, id2: string, ep2: string)
    requires ':' !in id1 && ':' !in id2
    requires id1 != id2 || ep1 != ep2
    ensures StoreKey(id1, ep1) != StoreKey(id2, ep2)
  {
    StoreKeyParts(id1, ep1);
    StoreKeyParts(id2, ep2);
  }
}
