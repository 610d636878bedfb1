/** Expiry and clean-up against a limiter that never forgets a bucket. */
module RateLimitReference {
  import opened Items
  import opened RateLimit
  import opened RateLimitRuns

  /** AllowN of a limiter with no client bound and no expiry. */
  ghost function Unbounded(cfg: Config, buckets: Buckets, key: string, cost: int, now: int): (Buckets, Decision)
    requires cfg.Valid()
  {
    if !ValidKey(key) then (buckets, Denied(InvalidKey))
    else if cost < 1 || cost > cfg.capacity then (buckets, Denied(InvalidCost))
    else Charge(cfg, buckets, key, if key in buckets then Refilled(cfg, buckets[key], now) else Fresh(cfg, now), cost)
  }

  /** An idle bucket is full again by the time it expires. */
  predicate Generous(cfg: Config) {
    Gain(cfg.refillRate, cfg.idleTTL) >= cfg.capacity as real
  }

  /** The bounded limiter holds a part of the reference's buckets; the rest are past their expiry. */
  ghost predicate Covers(cfg: Config, bounded: Buckets, reference: Buckets, clock: int) {
    && (forall k :: k in bounded ==> k in reference && reference[k] == bounded[k])
    && (forall k :: k in reference ==> BucketFits(cfg, reference[k]))
    && (forall k :: k in reference && k !in bounded ==> Expired(cfg, reference[k], clock))
  }

  lemma ForgottenBucketIsFull(cfg: Config, b: Bucket, now: int)
    requires cfg.Valid() && Generous(cfg) && BucketFits(cfg, b) && Expired(cfg, b, now)
    ensures Refilled(cfg, b, now) == Fresh(cfg, now)
  {
    GainIsMonotone(cfg.refillRate, cfg.idleTTL, Since(b.lastRefill, now));
  }

  lemma RoomDropsOnlyExpired(cfg: Config, buckets: Buckets, now: int)
    requires cfg.Valid() && cfg.overflow.RejectNew?
    ensures var room := MakeRoom(cfg, buckets, now).0;
            && (forall k :: k in room ==> k in buckets && room[k] == buckets[k])
            && (forall k :: k in buckets && k !in room ==> Expired(cfg, buckets[k], now))
  {
  }

  /** The buckets of the reference after a call that the bounded limiter did not turn away for want of a slot. */
  ghost function ReferenceAfter(cfg: Config, bounded: Buckets, reference: Buckets, call: Call): Buckets
    requires cfg.Valid()
  {
    if call.Tidy? || Allow(cfg, bounded, call.key, call.cost, call.now).1.reason.OverCapacity? then reference
    else Unbounded(cfg, reference, call.key, call.cost, call.now).0
  }

  /** The room made for a new key drops only expired buckets, so the reference still covers it. */
  lemma RoomIsCovered(cfg: Config, bounded: Buckets, reference: Buckets, key: string, now: int)
    requires cfg.Valid() && cfg.overflow.RejectNew? && Covers(cfg, bounded, reference, now)
    requires !Resident(cfg, bounded, key, now)
    ensures Covers(cfg, MakeRoom(cfg, bounded - {key}, now).0, reference, now)
  {
    var room := MakeRoom(cfg, bounded - {key}, now).0;
    RoomDropsOnlyExpired(cfg, bounded - {key}, now);
    forall k | k in reference && k !in room ensures Expired(cfg, reference[k], now) {
      if k in bounded && k != key { assert k in bounded - {key}; }
    }
  }

  lemma ReferenceIsFullToo(cfg: Config, bounded: Buckets, reference: Buckets, key: string, now: int)
    requires cfg.Valid() && (cfg.idleTTL == 0 || Generous(cfg)) && Covers(cfg, bounded, reference, now)
    requires !Resident(cfg, bounded, key, now) && key in reference
    ensures Refilled(cfg, reference[key], now) == Fresh(cfg, now)
  {
    ForgottenBucketIsFull(cfg, reference[key], now);
  }

  lemma ReferenceTakesFresh(cfg: Config, bounded: Buckets, reference: Buckets, key: string, cost: int, now: int)
    requires cfg.Valid() && (cfg.idleTTL == 0 || Generous(cfg)) && Covers(cfg, bounded, reference, now)
    requires ValidKey(key) && 1 <= cost <= cfg.capacity && !Resident(cfg, bounded, key, now)
    ensures Unbounded(cfg, reference, key, cost, now) == Charge(cfg, reference, key, Fresh(cfg, now), cost)
  {
    if key in reference { ReferenceIsFullToo(cfg, bounded, reference, key, now); }
  }

  lemma NewKeyAgrees(cfg: Config, bounded: Buckets, reference: Buckets, key: string, cost: int, now: int)
    requires cfg.Valid() && cfg.overflow.RejectNew? && (cfg.idleTTL == 0 || Generous(cfg))
    requires Covers(cfg, bounded, reference, now) && ValidKey(key) && 1 <= cost <= cfg.capacity
    requires !Resident(cfg, bounded, key, now)
    ensures var (after, decision) := Allow(cfg, bounded, key, cost, now);
            var (after', decision') := Unbounded(cfg, reference, key, cost, now);
            if decision.reason.OverCapacity? then Covers(cfg, after, reference, now)
            else decision == decision' && Covers(cfg, after, after', now)
  {
    RoomIsCovered(cfg, bounded, reference, key, now);
    ReferenceTakesFresh(cfg, bounded, reference, key, cost, now);
    ChargeCovers(cfg, MakeRoom(cfg, bounded - {key}, now).0, reference, key, Fresh(cfg, now), cost, now);
  }

  lemma ChargeCovers(cfg: Config, bounded: Buckets, reference: Buckets, key: string, b: Bucket, cost: int, now: int)
    requires cfg.Valid() && Covers(cfg, bounded, reference, now) && BucketFits(cfg, b) && cost >= 0
    ensures Covers(cfg, Charge(cfg, bounded, key, b, cost).0, Charge(cfg, reference, key, b, cost).0, now)
  {
  }

  lemma ResidentKeyAgrees(cfg: Config, bounded: Buckets, reference: Buckets, key: string, cost: int, now: int)
    requires cfg.Valid() && Covers(cfg, bounded, reference, now) && ValidKey(key) && 1 <= cost <= cfg.capacity
    requires Resident(cfg, bounded, key, now)
    ensures var (after, decision) := Allow(cfg, bounded, key, cost, now);
            var (after', decision') := Unbounded(cfg, reference, key, cost, now);
            decision == decision' && Covers(cfg, after, after', now)
  {
    RefillKeepsFit(cfg, bounded[key], now);
    ChargeCovers(cfg, bounded, reference, key, Refilled(cfg, bounded[key], now), cost, now);
  }

  lemma CoversLater(cfg: Config, bounded: Buckets, reference: Buckets, clock: int, now: int)
    requires Covers(cfg, bounded, reference, clock) && clock <= now
    ensures Covers(cfg, bounded, reference, now)
  {
  }

  /** One call: both limiters decide alike, and the bounded one still holds all that matters. */
  lemma CallAgrees(cfg: Config, bounded: Buckets, reference: Buckets, call: Call, clock: int)
    requires cfg.Valid() && cfg.overflow.RejectNew? && (cfg.idleTTL == 0 || Generous(cfg))
    requires Covers(cfg, bounded, reference, clock) && clock <= call.now
    ensures Covers(cfg, After(cfg, bounded, call), ReferenceAfter(cfg, bounded, reference, call), call.now)
    ensures call.Ask? ==>
              var decision := Allow(cfg, bounded, call.key, call.cost, call.now).1;
              decision.reason.OverCapacity? || decision == Unbounded(cfg, reference, call.key, call.cost, call.now).1
  {
    CoversLater(cfg, bounded, reference, clock, call.now);
    if call.Ask? && ValidKey(call.key) && 1 <= call.cost <= cfg.capacity {
      if Resident(cfg, bounded, call.key, call.now) {
        ResidentKeyAgrees(cfg, bounded, reference, call.key, call.cost, call.now);
      } else {
        NewKeyAgrees(cfg, bounded, reference, call.key, call.cost, call.now);
      }
    }
  }

  ghost predicate IsReferenceRun(cfg: Config, states: seq<Buckets>, calls: seq<Call>, references: seq<Buckets>)
    requires cfg.Valid() && |states| == |calls| + 1
  {
    && |references| == |states|
    && references[0] == map[]
    && forall i :: 0 <= i < |calls| ==> IsReferenceStep(cfg, states, calls, references, i)
  }

  ghost predicate IsReferenceStep(cfg: Config, states: seq<Buckets>, calls: seq<Call>, references: seq<Buckets>, i: nat)
    requires cfg.Valid() && i < |calls| && |references| == |states| == |calls| + 1
  {
    references[i + 1] == ReferenceAfter(cfg, states[i], references[i], calls[i])
  }

  ghost predicate ClocksDoNotDecrease(calls: seq<Call>) {
    forall i, j :: 0 <= i < j < |calls| ==> calls[i].now <= calls[j].now
  }

  lemma {:induction false} RunCovers(
      cfg: Config, states: seq<Buckets>, calls: seq<Call>, references: seq<Buckets>, n: nat)
    requires cfg.Valid() && cfg.overflow.RejectNew? && (cfg.idleTTL == 0 || Generous(cfg))
    requires IsRun(cfg, states, calls) && IsReferenceRun(cfg, states, calls, references) && ClocksDoNotDecrease(calls)
    requires 0 < n <= |calls|
    ensures Covers(cfg, states[n], references[n], calls[n - 1].now)
  {
    assert IsStep(cfg, states, calls, n - 1) && IsReferenceStep(cfg, states, calls, references, n - 1);
    if n > 1 {
      RunCovers(cfg, states, calls, references, n - 1);
      CallAgrees(cfg, states[n - 1], references[n - 1], calls[n - 1], calls[n - 2].now);
    } else {
      CallAgrees(cfg, states[0], references[0], calls[0], calls[0].now);
    }
  }

  /**
   * When an idle bucket is full again by its expiry (or never expires), new
   * keys are rejected at the bound, and the clock readings do not decrease,
   * every decision but a client-capacity denial is the one a limiter that never
   * forgets a bucket would give: expiry and clean-up are unobservable.
   */
  lemma ExpiryIsUnobservable(cfg: Config, states: seq<Buckets>, calls: seq<Call>, references: seq<Buckets>, n: nat)
    requires cfg.Valid() && cfg.overflow.RejectNew? && (cfg.idleTTL == 0 || Generous(cfg))
    requires IsRun(cfg, states, calls) && IsReferenceRun(cfg, states, calls, references) && ClocksDoNotDecrease(calls)
    requires n < |calls| && calls[n].Ask?
    ensures var decision := Allow(cfg, states[n], calls[n].key, calls[n].cost, calls[n].now).1;
            decision.reason.OverCapacity?
            || decision == Unbounded(cfg, references[n], calls[n].key, calls[n].cost, calls[n].now).1
  {
    if n > 0 {
      RunCovers(cfg, states, calls, references, n);
      CallAgrees(cfg, states[n], references[n], calls[n], calls[n - 1].now);
    } else {
      CallAgrees(cfg, states[0], references[0], calls[0], calls[0].now);
    }
  }

  /** The condition is exact: otherwise two calls, one TTL apart, tell the two limiters apart. */
  lemma ShortExpiryIsObservable(cfg: Config, key: string)
    requires cfg.Valid() && cfg.idleTTL > 0 && !Generous(cfg) && ValidKey(key)
    ensures var first := Ask(key, cfg.capacity, 0);
            var bounded := After(cfg, map[], first);
            var reference := ReferenceAfter(cfg, map[], map[], first);
            && Allow(cfg, bounded, key, cfg.capacity, cfg.idleTTL).1.allowed
            && !Unbounded(cfg, reference, key, cfg.capacity, cfg.idleTTL).1.allowed
  {
    var full := Bucket(0.0, 0, 0);
    assert After(cfg, map[], Ask(key, cfg.capacity, 0)) == map[key := full];
    assert ReferenceAfter(cfg, map[], map[], Ask(key, cfg.capacity, 0)) == map[key := full];
    assert Refilled(cfg, full, cfg.idleTTL).tokens < cfg.capacity as real;
    assert |map[key := full] - {key}| == 0;
  }

  /**
   * Readings in lock order must not decrease, whatever the rate: the clock is
   * read before the mutex is taken, so a clean-up with a later reading can
   * overtake a call, which then finds a fresh bucket.
   */
  lemma OvertakenReadingIsObservable(cfg: Config, key: string)
    requires cfg.Valid() && cfg.idleTTL > 0 && ValidKey(key)
    ensures var first, tidy := Ask(key, cfg.capacity, 0), Tidy(cfg.idleTTL);
            var bounded, reference := After(cfg, map[], first), ReferenceAfter(cfg, map[], map[], first);
            var bounded', reference' := After(cfg, bounded, tidy), ReferenceAfter(cfg, bounded, reference, tidy);
            && Allow(cfg, bounded', key, 1, 0).1.allowed
            && !Unbounded(cfg, reference', key, 1, 0).1.allowed
  {
    var empty := Bucket(0.0, 0, 0);
    assert After(cfg, map[], Ask(key, cfg.capacity, 0)) == map[key := empty];
    var none: Buckets := map[];
    assert Cleaned(cfg, map[key := empty], cfg.idleTTL) == none;
    assert none - {key} == none;
  }

  // ----- Eviction -----

  /** A key spends its whole bucket; a nanosecond later every one of the others asks for one token. */
  function Crowding(cfg: Config, key: string, others: seq<string>): (calls: seq<Call>)
    ensures |calls| == |others| + 1 && calls[0] == Ask(key, cfg.capacity, 0)
    ensures forall i :: 0 <= i < |others| ==> calls[i + 1] == Ask(others[i], 1, 1)
  {
    [Ask(key, cfg.capacity, 0)] + seq(|others|, i requires 0 <= i < |others| => Ask(others[i], 1, 1))
  }

  /** Different valid keys, none of them `key`. */
  ghost predicate AreOthers(key: string, others: seq<string>) {
    && (forall i :: 0 <= i < |others| ==> ValidKey(others[i]) && others[i] != key)
    && (forall i, j :: 0 <= i < j < |others| ==> others[i] != others[j])
  }

  /** The first `n` others hold a bucket, and so does the spent key while there is a slot left for it. */
  ghost predicate Crowded(cfg: Config, buckets: Buckets, key: string, others: seq<string>, n: nat)
    requires n <= |others|
  {
    if n < cfg.maxClients then
      && key in buckets && buckets[key] == Bucket(0.0, 0, 0) && |buckets| == n + 1
      && forall k :: k in buckets && k != key ==> k in others[..n] && buckets[k].lastSeen == 1
    else key !in buckets
  }

  /** At the bound a new key drives the spent one out, by expiry or as the oldest. */
  lemma NewcomerDrivesOut(cfg: Config, buckets: Buckets, key: string)
    requires cfg.Valid() && cfg.overflow.EvictOldest? && |buckets| == cfg.maxClients
    requires key in buckets && buckets[key].lastSeen == 0
    requires forall k :: k in buckets && k != key ==> buckets[k].lastSeen == 1
    ensures MakeRoom(cfg, buckets, 1).1 && key !in MakeRoom(cfg, buckets, 1).0
  {
    var cleaned := Cleaned(cfg, buckets, 1);
    assert cleaned.Keys <= buckets.Keys;
    if key in cleaned {
      assert cleaned == buckets;
      assert IsOldest(cleaned, key);
      OldestIsUnique(cleaned, OldestKey(cleaned), key);
    } else {
      assert cleaned.Keys <= buckets.Keys - {key};
      SubsetSize(cleaned.Keys, buckets.Keys - {key});
    }
  }

  lemma OneMoreCrowds(cfg: Config, buckets: Buckets, key: string, others: seq<string>, n: nat)
    requires cfg.Valid() && cfg.overflow.EvictOldest? && AreOthers(key, others)
    requires n < |others| == cfg.maxClients && Crowded(cfg, buckets, key, others, n)
    ensures Crowded(cfg, After(cfg, buckets, Ask(others[n], 1, 1)), key, others, n + 1)
  {
    var o := others[n];
    assert o !in buckets by { assert o !in others[..n]; }
    NewKeyIsCharged(cfg, buckets, o);
    if n + 1 == cfg.maxClients {
      NewcomerDrivesOut(cfg, buckets, key);
    } else {
      assert others[..n + 1] == others[..n] + [o];
    }
  }

  lemma NewKeyIsCharged(cfg: Config, buckets: Buckets, o: string)
    requires cfg.Valid() && cfg.overflow.EvictOldest? && ValidKey(o) && o !in buckets
    ensures After(cfg, buckets, Ask(o, 1, 1)) == MakeRoom(cfg, buckets, 1).0[o := Charged(Fresh(cfg, 1), 1)]
  {
    assert buckets - {o} == buckets;
  }

  lemma {:induction false} CrowdingFills(
      cfg: Config, states: seq<Buckets>, calls: seq<Call>, key: string, others: seq<string>, n: nat)
    requires cfg.Valid() && cfg.overflow.EvictOldest? && ValidKey(key) && AreOthers(key, others)
    requires n <= |others| == cfg.maxClients && calls == Crowding(cfg, key, others) && IsRun(cfg, states, calls)
    ensures Crowded(cfg, states[n + 1], key, others, n)
  {
    assert IsStep(cfg, states, calls, n);
    if n == 0 {
      FirstCallSpends(cfg, key);
    } else {
      CrowdingFills(cfg, states, calls, key, others, n - 1);
      OneMoreCrowds(cfg, states[n], key, others, n - 1);
    }
  }

  /** The reference keeps the spent bucket, whatever the others do. */
  lemma {:induction false} ReferenceKeepsSpent(
      cfg: Config, states: seq<Buckets>, calls: seq<Call>, references: seq<Buckets>,
      key: string, others: seq<string>, n: nat)
    requires cfg.Valid() && ValidKey(key) && AreOthers(key, others)
    requires n <= |others| && calls == Crowding(cfg, key, others)
    requires |states| == |calls| + 1 && states[0] == map[] && IsReferenceRun(cfg, states, calls, references)
    ensures key in references[n + 1] && references[n + 1][key] == Bucket(0.0, 0, 0)
  {
    if n == 0 {
      ReferenceSpends(cfg, states, calls, references, key);
    } else {
      ReferenceKeepsSpent(cfg, states, calls, references, key, others, n - 1);
      assert calls[n] == Ask(others[n - 1], 1, 1);
      OtherLeavesSpent(cfg, states, calls, references, key, n);
    }
  }

  lemma ReferenceSpends(cfg: Config, states: seq<Buckets>, calls: seq<Call>, references: seq<Buckets>, key: string)
    requires cfg.Valid() && ValidKey(key) && |states| == |calls| + 1 && states[0] == map[]
    requires |calls| > 0 && calls[0] == Ask(key, cfg.capacity, 0) && IsReferenceRun(cfg, states, calls, references)
    ensures references[1] == map[key := Bucket(0.0, 0, 0)]
  {
    assert IsReferenceStep(cfg, states, calls, references, 0);
    FirstCallSpends(cfg, key);
  }

  lemma FirstCallSpends(cfg: Config, key: string)
    requires cfg.Valid() && ValidKey(key)
    ensures After(cfg, map[], Ask(key, cfg.capacity, 0)) == map[key := Bucket(0.0, 0, 0)]
    ensures ReferenceAfter(cfg, map[], map[], Ask(key, cfg.capacity, 0)) == map[key := Bucket(0.0, 0, 0)]
  {
    var none: Buckets := map[];
    assert none - {key} == none;
  }

  /** A call of another key leaves the key's bucket in the reference alone. */
  lemma OtherLeavesSpent(
      cfg: Config, states: seq<Buckets>, calls: seq<Call>, references: seq<Buckets>, key: string, n: nat)
    requires cfg.Valid() && |states| == |calls| + 1 && n < |calls| && IsReferenceRun(cfg, states, calls, references)
    requires calls[n].Ask? && calls[n].key != key && key in references[n]
    ensures key in references[n + 1] && references[n + 1][key] == references[n][key]
  {
    assert IsReferenceStep(cfg, states, calls, references, n);
  }

  /**
   * Eviction forgets buckets that have not expired. Whatever the bound, as many
   * other keys as it admits drive out a key that has just spent its bucket, and
   * its next call is granted, which the limiter that never forgets denies.
   */
  lemma EvictionIsObservable(
      cfg: Config, states: seq<Buckets>, calls: seq<Call>, references: seq<Buckets>, key: string, others: seq<string>)
    requires cfg.Valid() && cfg.overflow.EvictOldest? && ValidKey(key) && AreOthers(key, others)
    requires |others| == cfg.maxClients && calls == Crowding(cfg, key, others)
    requires IsRun(cfg, states, calls) && IsReferenceRun(cfg, states, calls, references)
    ensures ClocksDoNotDecrease(calls)
    ensures Allow(cfg, states[|calls|], key, 1, 1).1.allowed
    ensures !Unbounded(cfg, references[|calls|], key, 1, 1).1.allowed
  {
    assert key !in states[|calls|] by { CrowdingFills(cfg, states, calls, key, others, |others|); }
    DrivenOutIsGranted(cfg, states[|calls|], key);
    var reference := references[|calls|];
    assert key in reference && reference[key] == Bucket(0.0, 0, 0) by {
      ReferenceKeepsSpent(cfg, states, calls, references, key, others, |others|);
    }
    SpentIsDenied(cfg, reference, key);
  }

  lemma DrivenOutIsGranted(cfg: Config, buckets: Buckets, key: string)
    requires cfg.Valid() && cfg.overflow.EvictOldest? && ValidKey(key) && key !in buckets
    ensures Allow(cfg, buckets, key, 1, 1).1.allowed
  {
  }

  lemma SpentIsDenied(cfg: Config, reference: Buckets, key: string)
    requires cfg.Valid() && ValidKey(key) && key in reference && reference[key] == Bucket(0.0, 0, 0)
    ensures !Unbounded(cfg, reference, key, 1, 1).1.allowed
  {
    SpentStaysShort(cfg);
  }

  /** In a nanosecond less than a token comes in, at any permitted rate. */
  lemma SpentStaysShort(cfg: Config)
    requires cfg.Valid()
    ensures Refilled(cfg, Bucket(0.0, 0, 0), 1).tokens < 1.0
  {
    assert Gain(cfg.refillRate, 1) == cfg.refillRate / SECOND as real;
  }
}
