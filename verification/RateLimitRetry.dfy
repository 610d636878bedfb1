/** RetryAfter is the exact waiting time, and the header rounds it up. */
module RateLimitRetry {
  import opened Items
  import opened RateLimit
  import opened RateLimitRuns

  /** Ceil is the least integer at or above: the test used to compare whole nanoseconds. */
  lemma CeilIsLeast(x: real, n: int)
    ensures n >= Ceil(x) <==> n as real >= x
  {
    var y := -x;
    assert y.Floor as real <= y < (y.Floor + 1) as real;
  }

  /** Waiting `nanos` gains the missing tokens exactly when it is long enough. */
  lemma GainReaches(rate: real, missing: real, nanos: int)
    requires rate > 0.0 && missing > 0.0
    ensures Gain(rate, nanos) >= missing <==> nanos as real >= missing / rate * SECOND as real
  {
    var wait := nanos as real / SECOND as real;
    var need := missing / rate;
    assert need * rate == missing;
    if wait >= need {
      assert (wait - need) * rate >= 0.0;
    } else {
      assert (need - wait) * rate > 0.0;
    }
    assert wait * SECOND as real == nanos as real;
  }

  /** The duration to wait for missing tokens, unless clipped, is the shortest one that gains them. */
  lemma DurationIsExact(rate: real, missing: real, nanos: int)
    requires rate > 0.0 && missing > 0.0
    ensures nanos < DurationForTokens(missing, rate) ==> Gain(rate, nanos) < missing
    ensures DurationForTokens(missing, rate) < MAX_DURATION && nanos >= DurationForTokens(missing, rate)
            ==> Gain(rate, nanos) >= missing
  {
    var wait := missing / rate * SECOND as real;
    GainReaches(rate, missing, nanos);
    CeilIsLeast(wait, nanos);
  }

  /** A bucket without grants since `b0` holds at least what `b0` would have refilled to. */
  ghost predicate KeepsUp(cfg: Config, b0: Bucket, b: Bucket) {
    && b0.lastRefill <= b.lastRefill
    && b.tokens >= Capped(b0.tokens + Gain(cfg.refillRate, Since(b0.lastRefill, b.lastRefill)), cfg.capacity)
  }

  lemma KeepsUpAtOnce(cfg: Config, b: Bucket)
    requires BucketFits(cfg, b)
    ensures KeepsUp(cfg, b, b)
  {
    assert Gain(cfg.refillRate, 0) == 0.0;
  }

  lemma RefillKeepsUp(cfg: Config, b0: Bucket, b: Bucket, now: int)
    requires cfg.Valid() && BucketFits(cfg, b0) && BucketFits(cfg, b) && KeepsUp(cfg, b0, b)
    ensures KeepsUp(cfg, b0, Refilled(cfg, b, now))
  {
    var rate := cfg.refillRate;
    if now > b.lastRefill {
      var first, second := Since(b0.lastRefill, b.lastRefill), Since(b.lastRefill, now);
      GainAdds(rate, first, second);
      GainIsMonotone(rate, Since(b0.lastRefill, now), first + second);
      GainIsMonotone(rate, 0, second);
      assert Gain(rate, 0) == 0.0;
    }
  }

  /** A call that grants nothing to `key` only refills its bucket or leaves it alone. */
  lemma UngrantedCallKeepsUp(cfg: Config, buckets: Buckets, call: Call, key: string, b0: Bucket)
    requires cfg.Valid() && Inv(cfg, buckets) && BucketFits(cfg, b0)
    requires key in buckets && key in After(cfg, buckets, call) && KeepsUp(cfg, b0, buckets[key])
    requires Charges(cfg, call, key) ==> !Expired(cfg, buckets[key], call.now)
    requires GrantedAt(cfg, buckets, call, key) == 0
    ensures KeepsUp(cfg, b0, After(cfg, buckets, call)[key])
  {
    if Charges(cfg, call, key) {
      RefillKeepsUp(cfg, b0, buckets[key], call.now);
    } else {
      OtherCallsDoNotTouch(cfg, buckets, call, key);
    }
  }

  ghost predicate NoGrants(cfg: Config, states: seq<Buckets>, calls: seq<Call>, key: string, i: nat, j: nat)
    requires cfg.Valid() && |states| == |calls| + 1 && j <= |calls|
  {
    forall n :: i <= n < j ==> Grants(cfg, states, calls, key)[n] == 0
  }

  lemma RunStepKeepsUp(
      cfg: Config, states: seq<Buckets>, calls: seq<Call>, key: string, i: nat, j: nat, n: nat, b0: Bucket)
    requires cfg.Valid() && IsRun(cfg, states, calls) && i <= n < j <= |calls| && BucketFits(cfg, b0)
    requires StaysResident(cfg, states, calls, key, i, j) && NoGrants(cfg, states, calls, key, i, j)
    requires key in states[n] && KeepsUp(cfg, b0, states[n][key])
    ensures key in states[n + 1] && KeepsUp(cfg, b0, states[n + 1][key])
  {
    assert key in states[n + 1];
    assert IsStep(cfg, states, calls, n);
    assert Grants(cfg, states, calls, key)[n] == 0;
    assert Inv(cfg, states[n]) by { RunKeepsInv(cfg, states, calls, n); }
    UngrantedCallKeepsUp(cfg, states[n], calls[n], key, b0);
  }

  lemma {:induction false} StepByStep(holds: seq<bool>, i: nat, j: nat)
    requires i <= j < |holds| && holds[i]
    requires forall n :: i <= n < j && holds[n] ==> holds[n + 1]
    ensures holds[j]
    decreases j
  {
    if i < j {
      StepByStep(holds, i, j - 1);
      assert holds[(j - 1) + 1];
    }
  }

  lemma RunKeepsUp(cfg: Config, states: seq<Buckets>, calls: seq<Call>, key: string, i: nat, j: nat)
    requires cfg.Valid() && IsRun(cfg, states, calls) && i <= j <= |calls|
    requires StaysResident(cfg, states, calls, key, i, j) && NoGrants(cfg, states, calls, key, i, j)
    ensures key in states[i] && key in states[j] && KeepsUp(cfg, states[i][key], states[j][key])
  {
    assert key in states[i];
    var b0 := states[i][key];
    RunTokensFit(cfg, states, calls, i, key);
    KeepsUpAtOnce(cfg, b0);
    var holds := seq(|states|, n requires 0 <= n < |states| => key in states[n] && KeepsUp(cfg, b0, states[n][key]));
    forall n | i <= n < j && holds[n] ensures holds[n + 1] {
      RunStepKeepsUp(cfg, states, calls, key, i, j, n, b0);
    }
    StepByStep(holds, i, j);
  }

  lemma {:induction false} NoGrantsSum(xs: seq<int>, i: nat, j: nat)
    requires i <= j <= |xs| && forall n :: i <= n < j ==> xs[n] == 0
    ensures Sum(xs, i, j) == 0
    decreases j
  {
    if i == j {
    } else {
      NoGrantsSum(xs, i, j - 1);
    }
  }

  /** Unless clipped, `wait` is the shortest time in which `missing` tokens come in. */
  ghost predicate IsWait(rate: real, missing: real, wait: int) {
    && (forall nanos :: nanos < wait ==> Gain(rate, nanos) < missing)
    && (wait < MAX_DURATION ==> forall nanos :: nanos >= wait ==> Gain(rate, nanos) >= missing)
  }

  lemma DurationIsWait(rate: real, missing: real)
    requires rate > 0.0 && missing > 0.0
    ensures IsWait(rate, missing, DurationForTokens(missing, rate))
  {
    forall nanos ensures nanos < DurationForTokens(missing, rate) ==> Gain(rate, nanos) < missing {
      DurationIsExact(rate, missing, nanos);
    }
    if DurationForTokens(missing, rate) < MAX_DURATION {
      forall nanos | nanos >= DurationForTokens(missing, rate) ensures Gain(rate, nanos) >= missing {
        DurationIsExact(rate, missing, nanos);
      }
    }
  }

  /** A bucket that has gained no more than time allows does not serve `cost` before the wait is over. */
  lemma ServesNotBefore(cfg: Config, b0: Bucket, b: Bucket, cost: int, now: int, wait: int)
    requires cfg.Valid() && BucketFits(cfg, b0) && BucketFits(cfg, b) && 1 <= cost <= cfg.capacity
    requires IsWait(cfg.refillRate, cost as real - b0.tokens, wait) && Level(cfg, b) <= Level(cfg, b0)
    requires Later(now, b.lastRefill) - b0.lastRefill < wait
    ensures Refilled(cfg, b, now).tokens < cost as real
  {
    var effective := Later(now, b.lastRefill);
    RefillKeepsFit(cfg, b, now);
    ChargeLowersLevel(cfg, b, now, cfg.capacity + 1);
    GainBetween(cfg.refillRate, b0.lastRefill, effective);
    assert Gain(cfg.refillRate, effective - b0.lastRefill) < cost as real - b0.tokens;
  }

  /** A bucket that has kept up serves `cost` once the wait is over. */
  lemma ServesFrom(cfg: Config, b0: Bucket, b: Bucket, cost: int, now: int, wait: int)
    requires cfg.Valid() && BucketFits(cfg, b0) && BucketFits(cfg, b) && 1 <= cost <= cfg.capacity
    requires IsWait(cfg.refillRate, cost as real - b0.tokens, wait) && KeepsUp(cfg, b0, b)
    requires wait < MAX_DURATION && Later(now, b.lastRefill) - b0.lastRefill >= wait
    ensures Refilled(cfg, b, now).tokens >= cost as real
  {
    var effective := Later(now, b.lastRefill);
    RefillKeepsUp(cfg, b0, b, now);
    assert Gain(cfg.refillRate, Since(b0.lastRefill, effective)) >= cost as real - b0.tokens;
  }

  // ----- RetryAfter along a run -----

  /** The decisions of a run, call by call. */
  ghost predicate Decides(cfg: Config, states: seq<Buckets>, calls: seq<Call>, decisions: seq<Decision>)
    requires cfg.Valid() && |states| == |calls| + 1
  {
    |decisions| == |calls| && forall n :: 0 <= n < |calls| ==> DecidesAt(cfg, states, calls, decisions, n)
  }

  ghost predicate DecidesAt(cfg: Config, states: seq<Buckets>, calls: seq<Call>, decisions: seq<Decision>, n: nat)
    requires cfg.Valid() && |states| == |calls| + 1 && |decisions| == |calls| && n < |calls|
  {
    calls[n].Ask? ==> decisions[n] == Allow(cfg, states[n], calls[n].key, calls[n].cost, calls[n].now).1
  }

  /**
   * RetryAfter is exact: after a rate-limited denial, while the bucket stays
   * resident and nothing is granted, a call of the same cost is denied until
   * its effective time is RetryAfter past the denial's, and granted from then
   * on unless RetryAfter was clipped at the largest duration.
   */
  lemma RetryAfterIsExact(
      cfg: Config, states: seq<Buckets>, calls: seq<Call>, decisions: seq<Decision>, i: nat, j: nat)
    requires cfg.Valid() && IsRun(cfg, states, calls) && Decides(cfg, states, calls, decisions) && i < j < |calls|
    requires calls[i].Ask? && calls[j].Ask? && calls[j].key == calls[i].key && calls[j].cost == calls[i].cost
    requires decisions[i].reason.RateLimited?
    requires StaysResident(cfg, states, calls, calls[i].key, i + 1, j + 1)
    requires NoGrants(cfg, states, calls, calls[i].key, i + 1, j)
    ensures var key, retryAfter := calls[i].key, decisions[i].retryAfter;
            && key in states[i + 1] && key in states[j]
            && var waited := Later(calls[j].now, states[j][key].lastRefill) - states[i + 1][key].lastRefill;
               && (waited < retryAfter ==> !decisions[j].allowed)
               && (retryAfter < MAX_DURATION ==> (decisions[j].allowed <==> waited >= retryAfter))
  {
    DenialAt(cfg, states, calls, decisions, i);
    CallAt(cfg, states, calls, decisions, i + 1, j, decisions[i].retryAfter);
  }

  /** A denial leaves a bucket short of the cost, and its RetryAfter is the wait for what is missing. */
  lemma DenialAt(cfg: Config, states: seq<Buckets>, calls: seq<Call>, decisions: seq<Decision>, i: nat)
    requires cfg.Valid() && IsRun(cfg, states, calls) && Decides(cfg, states, calls, decisions) && i < |calls|
    requires calls[i].Ask? && decisions[i].reason.RateLimited?
    ensures ValidKey(calls[i].key) && 1 <= calls[i].cost <= cfg.capacity && calls[i].key in states[i + 1]
    ensures IsWait(cfg.refillRate, calls[i].cost as real - states[i + 1][calls[i].key].tokens, decisions[i].retryAfter)
  {
    assert DecidesAt(cfg, states, calls, decisions, i) && IsStep(cfg, states, calls, i);
    DenialLeavesShort(cfg, states[i], calls[i].key, calls[i].cost, calls[i].now);
  }

  /** While the bucket stays resident without a grant, a call is served exactly when the wait is over. */
  lemma CallAt(
      cfg: Config, states: seq<Buckets>, calls: seq<Call>, decisions: seq<Decision>, i: nat, j: nat, wait: int)
    requires cfg.Valid() && IsRun(cfg, states, calls) && Decides(cfg, states, calls, decisions) && i <= j < |calls|
    requires calls[j].Ask? && ValidKey(calls[j].key) && 1 <= calls[j].cost <= cfg.capacity
    requires StaysResident(cfg, states, calls, calls[j].key, i, j + 1)
    requires NoGrants(cfg, states, calls, calls[j].key, i, j)
    requires calls[j].key in states[i]
    requires IsWait(cfg.refillRate, calls[j].cost as real - states[i][calls[j].key].tokens, wait)
    ensures var key := calls[j].key;
            && key in states[j]
            && var waited := Later(calls[j].now, states[j][key].lastRefill) - states[i][key].lastRefill;
               && (waited < wait ==> !decisions[j].allowed)
               && (wait < MAX_DURATION ==> (decisions[j].allowed <==> waited >= wait))
  {
    var key := calls[j].key;
    BucketsBetween(cfg, states, calls, key, i, j);
    var b0, b := states[i][key], states[j][key];
    assert decisions[j].allowed <==> Refilled(cfg, b, calls[j].now).tokens >= calls[j].cost as real by {
      assert DecidesAt(cfg, states, calls, decisions, j);
      ResidentAt(cfg, states, calls, key, i, j);
    }
    if Later(calls[j].now, b.lastRefill) - b0.lastRefill < wait {
      ServesNotBefore(cfg, b0, b, calls[j].cost, calls[j].now, wait);
    } else if wait < MAX_DURATION {
      ServesFrom(cfg, b0, b, calls[j].cost, calls[j].now, wait);
    }
  }

  lemma ResidentAt(cfg: Config, states: seq<Buckets>, calls: seq<Call>, key: string, i: nat, j: nat)
    requires |states| == |calls| + 1 && i <= j < |calls| && StaysResident(cfg, states, calls, key, i, j + 1)
    requires Charges(cfg, calls[j], key)
    ensures Resident(cfg, states[j], key, calls[j].now)
  {
  }

  lemma BucketsBetween(cfg: Config, states: seq<Buckets>, calls: seq<Call>, key: string, i: nat, j: nat)
    requires cfg.Valid() && IsRun(cfg, states, calls) && i <= j < |calls|
    requires StaysResident(cfg, states, calls, key, i, j + 1) && NoGrants(cfg, states, calls, key, i, j)
    ensures key in states[i] && key in states[j]
    ensures BucketFits(cfg, states[i][key]) && BucketFits(cfg, states[j][key])
    ensures KeepsUp(cfg, states[i][key], states[j][key])
    ensures Level(cfg, states[j][key]) <= Level(cfg, states[i][key])
  {
    StaysResidentPrefix(cfg, states, calls, key, i, j);
    RunKeepsUp(cfg, states, calls, key, i, j);
    RunTokensFit(cfg, states, calls, i, key);
    RunTokensFit(cfg, states, calls, j, key);
    ResidentBalance(cfg, states, calls, key, i, j);
    NoGrantsSum(Grants(cfg, states, calls, key), i, j);
  }

  lemma StaysResidentPrefix(cfg: Config, states: seq<Buckets>, calls: seq<Call>, key: string, i: nat, j: nat)
    requires |states| == |calls| + 1 && i <= j < |calls| && StaysResident(cfg, states, calls, key, i, j + 1)
    ensures StaysResident(cfg, states, calls, key, i, j)
  {
  }

  /** A new bucket is full, so only a resident one can run short. */
  lemma DenialNeedsResident(cfg: Config, buckets: Buckets, key: string, cost: int, now: int)
    requires cfg.Valid() && Allow(cfg, buckets, key, cost, now).1.reason.RateLimited?
    ensures ValidKey(key) && 1 <= cost <= cfg.capacity && Resident(cfg, buckets, key, now)
    ensures Allow(cfg, buckets, key, cost, now) == Charge(cfg, buckets, key, Refilled(cfg, buckets[key], now), cost)
  {
  }

  lemma DenialLeavesShort(cfg: Config, buckets: Buckets, key: string, cost: int, now: int)
    requires cfg.Valid() && Allow(cfg, buckets, key, cost, now).1.reason.RateLimited?
    ensures ValidKey(key) && 1 <= cost <= cfg.capacity && key in Allow(cfg, buckets, key, cost, now).0
    ensures var (after, decision) := Allow(cfg, buckets, key, cost, now);
            IsWait(cfg.refillRate, cost as real - after[key].tokens, decision.retryAfter)
  {
    DenialNeedsResident(cfg, buckets, key, cost, now);
    var b := Refilled(cfg, buckets[key], now);
    ChargeDenies(cfg, buckets, key, b, cost);
    DurationIsWait(cfg.refillRate, cost as real - b.tokens);
  }

  lemma ChargeDenies(cfg: Config, buckets: Buckets, key: string, b: Bucket, cost: int)
    requires cfg.Valid() && Charge(cfg, buckets, key, b, cost).1.reason.RateLimited?
    ensures b.tokens < cost as real && Charge(cfg, buckets, key, b, cost).0[key] == b
    ensures Charge(cfg, buckets, key, b, cost).1.retryAfter ==
            DurationForTokens(cost as real - b.tokens, cfg.refillRate)
  {
  }

  /** Reset is the first instant at which the bucket, left alone, is full, unless clipped. */
  lemma ResetIsWhenFull(cfg: Config, b: Bucket, cost: int, now: int)
    requires cfg.Valid() && BucketFits(cfg, b) && 1 <= cost <= cfg.capacity && now >= b.lastRefill
    ensures var after := Charged(b, cost);
            var decision := DecisionFor(cfg, b, cost);
            && decision.reset.Some?
            && (now < decision.reset.value ==> Refilled(cfg, after, now).tokens < cfg.capacity as real)
            && (decision.reset.value < b.lastRefill + MAX_DURATION && now >= decision.reset.value ==>
                  Refilled(cfg, after, now).tokens == cfg.capacity as real)
  {
    var after := Charged(b, cost);
    var missing := cfg.capacity as real - after.tokens;
    if missing > 0.0 {
      DurationIsExact(cfg.refillRate, missing, Since(b.lastRefill, now));
      RefillIsBounded(cfg, after, now);
      DurationIsExact(cfg.refillRate, missing, now - b.lastRefill);
    } else {
      RefillKeepsFit(cfg, after, now);
    }
  }

  /** Remaining is the largest whole cost the bucket still covers, up to the rounding slack. */
  lemma RemainingIsWholeTokens(cfg: Config, tokens: real, cost: nat)
    requires cfg.Valid() && 0.0 <= tokens <= cfg.capacity as real
    ensures 0 <= WholeTokens(tokens, cfg.capacity) <= cfg.capacity
    ensures WholeTokens(tokens, cfg.capacity) as real <= tokens + 0.000000001
    ensures cost as real <= tokens ==> cost <= WholeTokens(tokens, cfg.capacity)
  {
    if cost as real <= tokens { assert cost as real <= tokens + 0.000000001; }
  }

  /** The Retry-After header value for a waiting time. */
  function RetryAfterSeconds(value: int): int {
    if value <= 0 then 1
    else
      var seconds := value / SECOND + (if value % SECOND != 0 then 1 else 0);
      if seconds < 1 then 1 else seconds
  }

  /** The header is enough: it is the least positive whole number of seconds that covers the wait. */
  lemma HeaderCoversRetryAfter(value: int, seconds: int)
    ensures RetryAfterSeconds(value) >= 1 && RetryAfterSeconds(value) * SECOND >= value
    ensures seconds >= 1 && seconds * SECOND >= value ==> RetryAfterSeconds(value) <= seconds
  {
  }
}
