/** What holds along every run of the limiter. */
module RateLimitRuns {
  import opened Items
  import opened RateLimit

  /** A call of AllowN with the clock reading it took, or a maintenance clean-up. */
  datatype Call = Ask(key: string, cost: int, now: int) | Tidy(now: int)

  ghost function After(cfg: Config, buckets: Buckets, call: Call): Buckets
    requires cfg.Valid()
  {
    match call
    case Ask(key, cost, now) => Allow(cfg, buckets, key, cost, now).0
    case Tidy(now) => Cleaned(cfg, buckets, now)
  }

  /** The limiter's states, from empty, in the order calls take its mutex. */
  ghost predicate IsRun(cfg: Config, states: seq<Buckets>, calls: seq<Call>)
    requires cfg.Valid()
  {
    && |states| == |calls| + 1
    && states[0] == map[]
    && forall i :: 0 <= i < |calls| ==> IsStep(cfg, states, calls, i)
  }

  ghost predicate IsStep(cfg: Config, states: seq<Buckets>, calls: seq<Call>, i: nat)
    requires cfg.Valid() && i < |calls| && |states| == |calls| + 1
  {
    states[i + 1] == After(cfg, states[i], calls[i])
  }

  // ----- Invariant -----

  ghost predicate BucketFits(cfg: Config, b: Bucket) {
    0.0 <= b.tokens <= cfg.capacity as real && b.lastSeen == b.lastRefill
  }

  ghost predicate Inv(cfg: Config, buckets: Buckets) {
    && |buckets| <= cfg.maxClients
    && forall k :: k in buckets ==> ValidKey(k) && BucketFits(cfg, buckets[k])
  }

  lemma GainIsMonotone(rate: real, a: int, b: int)
    requires rate > 0.0 && a <= b
    ensures Gain(rate, a) <= Gain(rate, b)
  {
    var x, y := a as real / SECOND as real, b as real / SECOND as real;
    assert x <= y;
    assert (y - x) * rate >= 0.0;
  }

  lemma GainAdds(rate: real, a: int, b: int)
    ensures Gain(rate, a + b) == Gain(rate, a) + Gain(rate, b)
  {
    var x, y := a as real / SECOND as real, b as real / SECOND as real;
    assert (a + b) as real / SECOND as real == x + y;
    assert (x + y) * rate == x * rate + y * rate;
  }

  lemma RefillKeepsFit(cfg: Config, b: Bucket, now: int)
    requires cfg.Valid() && BucketFits(cfg, b)
    ensures BucketFits(cfg, Refilled(cfg, b, now))
    ensures Refilled(cfg, b, now).lastRefill == Later(now, b.lastRefill)
    ensures b.tokens <= Refilled(cfg, b, now).tokens
  {
    if now > b.lastRefill {
      GainIsMonotone(cfg.refillRate, 0, Since(b.lastRefill, now));
      assert Gain(cfg.refillRate, 0) == 0.0;
    }
  }

  lemma CleanedKeeps(cfg: Config, buckets: Buckets, now: int)
    ensures Cleaned(cfg, buckets, now).Keys <= buckets.Keys
    ensures |Cleaned(cfg, buckets, now)| <= |buckets|
  {
    var kept := Cleaned(cfg, buckets, now).Keys;
    assert buckets.Keys == kept + (buckets.Keys - kept);
  }

  lemma MakeRoomFits(cfg: Config, buckets: Buckets, now: int)
    requires cfg.Valid() && |buckets| <= cfg.maxClients
    ensures var (room, admitted) := MakeRoom(cfg, buckets, now);
            && room.Keys <= buckets.Keys
            && (forall k :: k in room ==> room[k] == buckets[k])
            && |room| <= cfg.maxClients
            && (admitted ==> |room| < cfg.maxClients)
  {
    CleanedKeeps(cfg, buckets, now);
    var cleaned := Cleaned(cfg, buckets, now);
    if |cleaned| > 0 {
      assert (cleaned - {OldestKey(cleaned)}).Keys == cleaned.Keys - {OldestKey(cleaned)};
    }
  }

  lemma RemovedIsSmaller(buckets: Buckets, key: string)
    ensures |buckets - {key}| <= |buckets|
  {
    var kept := (buckets - {key}).Keys;
    assert buckets.Keys == kept + (buckets.Keys - kept);
  }

  lemma ChargeKeepsInv(cfg: Config, buckets: Buckets, key: string, b: Bucket, cost: int)
    requires cfg.Valid() && Inv(cfg, buckets) && ValidKey(key) && BucketFits(cfg, b) && cost >= 0
    requires key in buckets || |buckets| < cfg.maxClients
    ensures Inv(cfg, Charge(cfg, buckets, key, b, cost).0)
  {
    var r := Charge(cfg, buckets, key, b, cost).0;
    assert r.Keys == buckets.Keys + {key};
  }

  /** Every call keeps 0 <= tokens <= capacity, lastSeen = lastRefill and the client bound. */
  lemma CallKeepsInv(cfg: Config, buckets: Buckets, call: Call)
    requires cfg.Valid() && Inv(cfg, buckets)
    ensures Inv(cfg, After(cfg, buckets, call))
  {
    match call
    case Tidy(now) => CleanedKeeps(cfg, buckets, now);
    case Ask(key, cost, now) =>
      if ValidKey(key) && 1 <= cost <= cfg.capacity {
        if Resident(cfg, buckets, key, now) {
          RefillKeepsFit(cfg, buckets[key], now);
          ChargeKeepsInv(cfg, buckets, key, Refilled(cfg, buckets[key], now), cost);
        } else {
          RemovedIsSmaller(buckets, key);
          MakeRoomFits(cfg, buckets - {key}, now);
          var (room, admitted) := MakeRoom(cfg, buckets - {key}, now);
          assert Inv(cfg, room);
          if admitted { ChargeKeepsInv(cfg, room, key, Fresh(cfg, now), cost); }
        }
      }
  }

  lemma {:induction false} RunKeepsInv(cfg: Config, states: seq<Buckets>, calls: seq<Call>, n: nat)
    requires cfg.Valid() && IsRun(cfg, states, calls) && n < |states|
    ensures Inv(cfg, states[n])
  {
    if n == 0 {
    } else {
      RunKeepsInv(cfg, states, calls, n - 1);
      assert IsStep(cfg, states, calls, n - 1);
      CallKeepsInv(cfg, states[n - 1], calls[n - 1]);
    }
  }

  // ----- How much a resident key can be granted -----

  /** The cost the n-th call grants to `key`. */
  ghost function GrantedAt(cfg: Config, buckets: Buckets, call: Call, key: string): int
    requires cfg.Valid()
  {
    if call.Ask? && call.key == key && Allow(cfg, buckets, key, call.cost, call.now).1.allowed then call.cost else 0
  }

  /** The costs granted to `key`, call by call. */
  ghost function Grants(cfg: Config, states: seq<Buckets>, calls: seq<Call>, key: string): (grants: seq<int>)
    requires cfg.Valid() && |states| == |calls| + 1
    ensures |grants| == |calls|
  {
    seq(|calls|, n requires 0 <= n < |calls| => GrantedAt(cfg, states[n], calls[n], key))
  }

  /** The sum of the elements i, ..., j - 1. */
  function Sum(xs: seq<int>, i: nat, j: nat): int
    requires i <= j <= |xs|
    decreases j
  {
    if i == j then 0 else Sum(xs, i, j - 1) + xs[j - 1]
  }

  lemma {:induction false} SumSplits(xs: seq<int>, i: nat, j: nat)
    requires i < j <= |xs|
    ensures Sum(xs, i, j) == xs[i] + Sum(xs, i + 1, j)
    decreases j
  {
    if i + 1 < j { SumSplits(xs, i, j - 1); }
  }

  /** The call is one that charges the bucket of `key`, if it finds or makes one. */
  predicate Charges(cfg: Config, call: Call, key: string) {
    call.Ask? && call.key == key && 1 <= call.cost <= cfg.capacity
  }

  /** The bucket of `key` is neither removed nor reset by any of the calls i, ..., j - 1. */
  ghost predicate StaysResident(cfg: Config, states: seq<Buckets>, calls: seq<Call>, key: string, i: nat, j: nat)
    requires |states| == |calls| + 1 && i <= j <= |calls|
  {
    && (forall n :: i <= n <= j ==> key in states[n])
    && (forall n :: i <= n < j && Charges(cfg, calls[n], key) && key in states[n] ==>
          !Expired(cfg, states[n][key], calls[n].now))
  }

  /** A call that leaves the bucket of another key in the map leaves it as it was. */
  lemma OtherCallsDoNotTouch(cfg: Config, buckets: Buckets, call: Call, key: string)
    requires cfg.Valid() && Inv(cfg, buckets) && key in buckets && key in After(cfg, buckets, call)
    requires !Charges(cfg, call, key)
    ensures After(cfg, buckets, call)[key] == buckets[key] && GrantedAt(cfg, buckets, call, key) == 0
  {
    if call.Ask? && 1 <= call.cost <= cfg.capacity && !Resident(cfg, buckets, call.key, call.now) {
      RemovedIsSmaller(buckets, call.key);
      MakeRoomFits(cfg, buckets - {call.key}, call.now);
    }
  }

  lemma RefillIsBounded(cfg: Config, b: Bucket, now: int)
    requires cfg.Valid() && BucketFits(cfg, b)
    ensures Refilled(cfg, b, now).tokens <= b.tokens + Gain(cfg.refillRate, Later(now, b.lastRefill) - b.lastRefill)
  {
    if now > b.lastRefill {
      GainIsMonotone(cfg.refillRate, Since(b.lastRefill, now), now - b.lastRefill);
    } else {
      assert Gain(cfg.refillRate, 0) == 0.0;
    }
  }

  /** Tokens minus all refill up to now: a level that only grants lower and that refills never raise. */
  ghost function Level(cfg: Config, b: Bucket): real {
    b.tokens - Gain(cfg.refillRate, b.lastRefill)
  }

  lemma GainBetween(rate: real, a: int, b: int)
    ensures Gain(rate, b - a) == Gain(rate, b) - Gain(rate, a)
  {
    GainAdds(rate, b - a, a);
  }

  lemma ChargeLowersLevel(cfg: Config, b: Bucket, now: int, cost: int)
    requires cfg.Valid() && BucketFits(cfg, b)
    ensures var found := Refilled(cfg, b, now);
            Level(cfg, Charged(found, cost)) + (if found.tokens >= cost as real then cost else 0) as real
            <= Level(cfg, b)
  {
    RefillKeepsFit(cfg, b, now);
    RefillIsBounded(cfg, b, now);
    GainBetween(cfg.refillRate, b.lastRefill, Later(now, b.lastRefill));
  }

  /** One call: what it grants comes out of the bucket's level. */
  lemma CallBalance(cfg: Config, buckets: Buckets, call: Call, key: string)
    requires cfg.Valid() && Inv(cfg, buckets) && key in buckets && key in After(cfg, buckets, call)
    requires Charges(cfg, call, key) ==> !Expired(cfg, buckets[key], call.now)
    ensures Level(cfg, After(cfg, buckets, call)[key]) + GrantedAt(cfg, buckets, call, key) as real
            <= Level(cfg, buckets[key])
  {
    if Charges(cfg, call, key) {
      ChargeLowersLevel(cfg, buckets[key], call.now, call.cost);
    } else {
      OtherCallsDoNotTouch(cfg, buckets, call, key);
    }
  }

  ghost predicate LevelsFall(levels: seq<real>, grants: seq<int>, i: nat, j: nat)
    requires j < |levels| && j <= |grants|
  {
    forall n :: i <= n < j ==> levels[n + 1] + grants[n] as real <= levels[n]
  }

  lemma {:induction false} LevelsSum(levels: seq<real>, grants: seq<int>, i: nat, j: nat)
    requires i <= j < |levels| && j <= |grants| && LevelsFall(levels, grants, i, j)
    ensures levels[j] + Sum(grants, i, j) as real <= levels[i]
    decreases j
  {
    if i < j {
      LevelsSum(levels, grants, i, j - 1);
      assert levels[(j - 1) + 1] + grants[j - 1] as real <= levels[j - 1];
    }
  }

  lemma RunCallBalance(cfg: Config, states: seq<Buckets>, calls: seq<Call>, key: string, i: nat, j: nat, n: nat)
    requires cfg.Valid() && IsRun(cfg, states, calls) && i <= n < j <= |calls|
    requires StaysResident(cfg, states, calls, key, i, j)
    ensures key in states[n] && key in states[n + 1]
    ensures Level(cfg, states[n + 1][key]) + GrantedAt(cfg, states[n], calls[n], key) as real
            <= Level(cfg, states[n][key])
  {
    assert key in states[n] && key in states[n + 1];
    assert IsStep(cfg, states, calls, n);
    assert Inv(cfg, states[n]) by { RunKeepsInv(cfg, states, calls, n); }
    CallBalance(cfg, states[n], calls[n], key);
  }

  lemma ResidentBalance(cfg: Config, states: seq<Buckets>, calls: seq<Call>, key: string, i: nat, j: nat)
    requires cfg.Valid() && IsRun(cfg, states, calls) && i <= j <= |calls|
    requires StaysResident(cfg, states, calls, key, i, j)
    ensures key in states[i] && key in states[j]
    ensures Level(cfg, states[j][key]) + Sum(Grants(cfg, states, calls, key), i, j) as real
            <= Level(cfg, states[i][key])
  {
    LevelsFallInRun(cfg, states, calls, key, i, j);
    LevelsSum(Levels(cfg, states, key), Grants(cfg, states, calls, key), i, j);
    assert key in states[i] && key in states[j];
  }

  /** The level of the key's bucket, state by state; 0 where there is none. */
  ghost function Levels(cfg: Config, states: seq<Buckets>, key: string): (levels: seq<real>)
    ensures |levels| == |states|
    ensures forall n :: 0 <= n < |states| && key in states[n] ==> levels[n] == Level(cfg, states[n][key])
  {
    seq(|states|, n requires 0 <= n < |states| => if key in states[n] then Level(cfg, states[n][key]) else 0.0)
  }

  lemma LevelsFallInRun(cfg: Config, states: seq<Buckets>, calls: seq<Call>, key: string, i: nat, j: nat)
    requires cfg.Valid() && IsRun(cfg, states, calls) && i <= j <= |calls|
    requires StaysResident(cfg, states, calls, key, i, j)
    ensures LevelsFall(Levels(cfg, states, key), Grants(cfg, states, calls, key), i, j)
  {
    var levels, grants := Levels(cfg, states, key), Grants(cfg, states, calls, key);
    forall n | i <= n < j ensures levels[n + 1] + grants[n] as real <= levels[n] {
      RunCallBalance(cfg, states, calls, key, i, j, n);
    }
  }

  lemma FirstCallLeavesCapacity(cfg: Config, buckets: Buckets, call: Call)
    requires cfg.Valid() && Inv(cfg, buckets) && call.Ask? && ValidKey(call.key) && 1 <= call.cost <= cfg.capacity
    requires call.key in After(cfg, buckets, call)
    ensures After(cfg, buckets, call)[call.key].tokens + GrantedAt(cfg, buckets, call, call.key) as real
            <= cfg.capacity as real
  {
    if Resident(cfg, buckets, call.key, call.now) {
      RefillKeepsFit(cfg, buckets[call.key], call.now);
    } else {
      RemovedIsSmaller(buckets, call.key);
      MakeRoomFits(cfg, buckets - {call.key}, call.now);
    }
  }

  /**
   * From a call on `key` to a later one, while the bucket stays resident, the
   * total cost granted is at most the capacity plus the refill between their
   * effective times, whatever the clock readings and the other keys do.
   */
  lemma GrantsAreBounded(cfg: Config, states: seq<Buckets>, calls: seq<Call>, i: nat, j: nat)
    requires cfg.Valid() && IsRun(cfg, states, calls) && i < j <= |calls|
    requires calls[i].Ask? && ValidKey(calls[i].key) && 1 <= calls[i].cost <= cfg.capacity
    requires StaysResident(cfg, states, calls, calls[i].key, i + 1, j)
    ensures var key := calls[i].key;
            && key in states[i + 1] && key in states[j]
            && Sum(Grants(cfg, states, calls, key), i, j) as real
               <= cfg.capacity as real + Gain(cfg.refillRate, states[j][key].lastRefill - states[i + 1][key].lastRefill)
  {
    var key := calls[i].key;
    ResidentBalance(cfg, states, calls, key, i + 1, j);
    SumSplits(Grants(cfg, states, calls, key), i, j);
    RunFirstCall(cfg, states, calls, i);
    RunTokensFit(cfg, states, calls, j, key);
    GainBetween(cfg.refillRate, states[i + 1][key].lastRefill, states[j][key].lastRefill);
  }

  lemma RunFirstCall(cfg: Config, states: seq<Buckets>, calls: seq<Call>, n: nat)
    requires cfg.Valid() && IsRun(cfg, states, calls) && n < |calls|
    requires calls[n].Ask? && ValidKey(calls[n].key) && 1 <= calls[n].cost <= cfg.capacity
    requires calls[n].key in states[n + 1]
    ensures states[n + 1][calls[n].key].tokens + Grants(cfg, states, calls, calls[n].key)[n] as real
            <= cfg.capacity as real
  {
    RunKeepsInv(cfg, states, calls, n);
    assert IsStep(cfg, states, calls, n);
    FirstCallLeavesCapacity(cfg, states[n], calls[n]);
  }

  lemma RunTokensFit(cfg: Config, states: seq<Buckets>, calls: seq<Call>, n: nat, key: string)
    requires cfg.Valid() && IsRun(cfg, states, calls) && n < |states| && key in states[n]
    ensures BucketFits(cfg, states[n][key])
  {
    RunKeepsInv(cfg, states, calls, n);
  }
}
