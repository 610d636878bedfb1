/** The limiter object: the bucket map its mutex guards, changed in place. */
module Limiter {
  import opened Items
  import opened RateLimit
  import opened RateLimitRuns
  import opened RateLimitDecisions

  /** A bucket made for a call is full when that call charges it. */
  lemma NewBucketIsCharged(cfg: Config, room: Buckets, key: string, cost: int, now: int)
    requires cfg.Valid()
    ensures Charge(cfg, room[key := Fresh(cfg, now)], key, Refilled(cfg, Fresh(cfg, now), now), cost)
            == Charge(cfg, room, key, Fresh(cfg, now), cost)
  {
    var b := Charged(Fresh(cfg, now), cost);
    assert room[key := Fresh(cfg, now)][key := b] == room[key := b];
  }

  class Limiter {
    const cfg: Config
    var buckets: Buckets

    constructor (cfg: Config)
      ensures this.cfg == cfg && buckets == map[]
    {
      this.cfg := cfg;
      buckets := map[];
    }

    /** AllowN, given the clock reading it takes before it takes the mutex. */
    method AllowN(key: string, cost: int, now: int) returns (decision: Decision)
      requires cfg.Valid()
      modifies this
      ensures buckets == Allow(cfg, old(buckets), key, cost, now).0
      ensures decision == Allow(cfg, old(buckets), key, cost, now).1
      ensures (key in old(buckets) ==> BucketFits(cfg, old(buckets)[key]))
              && (decision.reason == Admitted || decision.reason == RateLimited) ==>
                key in buckets && IsWholePart(cfg, buckets[key].tokens, decision.remaining)
    {
      if !ValidKey(key) {
        return Denied(InvalidKey);
      }
      if cost < 1 || cost > cfg.capacity {
        return Denied(InvalidCost);
      }
      if key in buckets && Expired(cfg, buckets[key], now) {
        buckets := buckets - {key};
      }
      if key !in buckets {
        assert buckets == old(buckets) - {key};
        var admitted := MakeRoomLocked(now);
        if !admitted {
          return Denied(OverCapacity);
        }
        NewBucketIsCharged(cfg, buckets, key, cost, now);
        buckets := buckets[key := Fresh(cfg, now)];
      }
      decision := ChargeLocked(key, cost, now);
    }

    /** Makes a slot for a new key when the map is at its bound. */
    method MakeRoomLocked(now: int) returns (admitted: bool)
      requires cfg.Valid()
      modifies this
      ensures (buckets, admitted) == MakeRoom(cfg, old(buckets), now)
    {
      if |buckets| >= cfg.maxClients {
        var _ := CleanupLocked(now);
        if |buckets| >= cfg.maxClients {
          if cfg.overflow.RejectNew? {
            return false;
          }
          EvictOldestLocked();
        }
      }
      return true;
    }

    /** Refills the bucket of `key` and takes `cost` tokens from it if it has them. */
    method ChargeLocked(key: string, cost: int, now: int) returns (decision: Decision)
      requires cfg.Valid() && key in buckets
      modifies this
      ensures (buckets, decision) ==
              Charge(cfg, old(buckets), key, Refilled(cfg, old(buckets)[key], now), cost)
      ensures BucketFits(cfg, old(buckets)[key]) && cost >= 1 ==>
                key in buckets && IsWholePart(cfg, buckets[key].tokens, decision.remaining)
    {
      ghost var found := buckets[key];
      var entry := buckets[key];
      var effectiveNow := if now < entry.lastRefill then entry.lastRefill else now;
      if effectiveNow > entry.lastRefill {
        entry := entry.(tokens := entry.tokens + Gain(cfg.refillRate, Since(entry.lastRefill, effectiveNow)));
        if entry.tokens > cfg.capacity as real {
          entry := entry.(tokens := cfg.capacity as real);
        }
        entry := entry.(lastRefill := effectiveNow);
      }
      if effectiveNow > entry.lastSeen {
        entry := entry.(lastSeen := effectiveNow);
      }
      assert entry == Refilled(cfg, old(buckets)[key], now);
      decision := DecisionFor(cfg, entry, cost);
      if entry.tokens >= cost as real {
        entry := entry.(tokens := entry.tokens - cost as real);
      }
      buckets := buckets[key := entry];
      if BucketFits(cfg, found) && cost >= 1 {
        RefillKeepsFit(cfg, found, now);
        ChargeLeaves(cfg, old(buckets), key, Refilled(cfg, found, now), cost);
      }
    }

    /** Removes exactly the expired buckets and counts them. */
    method CleanupLocked(now: int) returns (removed: int)
      modifies this
      ensures buckets == Cleaned(cfg, old(buckets), now)
      ensures removed == |old(buckets)| - |buckets|
    {
      removed := 0;
      var todo := buckets.Keys;
      if cfg.idleTTL <= 0 {
        assert Cleaned(cfg, buckets, now) == buckets;
        return;
      }
      while todo != {}
        invariant todo <= buckets.Keys <= old(buckets.Keys)
        invariant forall k :: k in buckets ==> buckets[k] == old(buckets)[k]
        invariant forall k :: k in old(buckets) && k !in todo ==>
                    (k in buckets <==> !Expired(cfg, old(buckets)[k], now))
        invariant removed == |old(buckets)| - |buckets|
      {
        var k :| k in todo;
        todo := todo - {k};
        if Expired(cfg, buckets[k], now) {
          assert (buckets - {k}).Keys == buckets.Keys - {k};
          buckets := buckets - {k};
          removed := removed + 1;
        }
      }
    }

    /** Removes the one oldest bucket, in whatever order the map is walked. */
    method EvictOldestLocked()
      modifies this
      ensures old(buckets) == map[] ==> buckets == map[]
      ensures old(buckets) != map[] ==> buckets == old(buckets) - {OldestKey(old(buckets))}
    {
      if buckets == map[] {
        return;
      }
      var oldestKey :| oldestKey in buckets;
      ghost var seen := map[oldestKey := buckets[oldestKey]];
      var todo := buckets.Keys - {oldestKey};
      while todo != {}
        invariant buckets == old(buckets)
        invariant seen.Keys == buckets.Keys - todo && todo <= buckets.Keys
        invariant forall k :: k in seen ==> seen[k] == buckets[k]
        invariant IsOldest(seen, oldestKey)
      {
        var k :| k in todo;
        todo := todo - {k};
        OldestOfTwo(seen[k := buckets[k]], seen, k, oldestKey);
        seen := seen[k := buckets[k]];
        if Older(buckets[k], k, buckets[oldestKey], oldestKey) {
          oldestKey := k;
        }
      }
      assert seen == buckets;
      OldestIsUnique(buckets, oldestKey, OldestKey(buckets));
      buckets := buckets - {oldestKey};
    }

    /** The maintenance entry point: the number of buckets removed. */
    method Cleanup(now: int) returns (removed: int)
      modifies this
      ensures buckets == Cleaned(cfg, old(buckets), now)
      ensures removed == |old(buckets)| - |buckets|
    {
      if cfg.idleTTL <= 0 {
        assert Cleaned(cfg, buckets, now) == buckets;
        return 0;
      }
      removed := CleanupLocked(now);
    }

    /** The number of resident buckets, after dropping the expired ones. */
    method Len(now: int) returns (n: int)
      modifies this
      ensures buckets == Cleaned(cfg, old(buckets), now) && n == |buckets|
    {
      var _ := CleanupLocked(now);
      n := |buckets|;
    }
  }
}
