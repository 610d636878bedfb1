/**
 * The bounded token-bucket limiter. Instants and durations are integer
 * nanoseconds; float64 quantities are real numbers.
 */
module RateLimit {
  import opened Items
  import opened GoStrings
  import opened Lexicographic

  const MAX_KEY_BYTES := 256
  const MAX_DURATION := 0x7FFF_FFFF_FFFF_FFFF

  datatype Overflow = RejectNew | EvictOldest

  datatype Config = Config(capacity: int, refillRate: real, maxClients: int, idleTTL: int, overflow: Overflow) {
    /** The configurations New accepts. */
    predicate Valid() {
      && 0 < capacity <= 100_000
      && 0.0 < refillRate <= 100_000.0
      && 0 < maxClients <= 1_000_000
      && 0 <= idleTTL <= 24 * 3600 * SECOND
    }
  }

  datatype Bucket = Bucket(tokens: real, lastRefill: int, lastSeen: int)

  type Buckets = map<string, Bucket>

  datatype Reason = Admitted | RateLimited | OverCapacity | InvalidKey | InvalidCost

  datatype Decision = Decision(allowed: bool, remaining: int, retryAfter: int, reset: Option<int>, reason: Reason)

  function Denied(reason: Reason): Decision {
    Decision(false, 0, 0, None, reason)
  }

  predicate PlainRunes(s: string)
    decreases |s|
  {
    s == "" ||
    (RuneWidth(s) > 0
     && !IsSpaceRune(s[..RuneWidth(s)])
     && !IsControlRune(s[..RuneWidth(s)])
     && PlainRunes(s[RuneWidth(s)..]))
  }

  predicate ValidKey(key: string) {
    key != "" && |key| <= MAX_KEY_BYTES && ValidUtf8(key) && PlainRunes(key)
  }

  // ----- Refilling and charging one bucket -----

  /** The tokens gained in `nanos` nanoseconds. */
  function Gain(rate: real, nanos: int): real {
    nanos as real / SECOND as real * rate
  }

  /** time.Time.Sub of a later instant: the difference, saturated at the largest duration. */
  function Since(earlier: int, later: int): int {
    if later - earlier > MAX_DURATION then MAX_DURATION else later - earlier
  }

  function Later(a: int, b: int): int {
    if a < b then b else a
  }

  function Capped(tokens: real, capacity: int): real {
    if tokens > capacity as real then capacity as real else tokens
  }

  /** The bucket as a call at `now` finds it. */
  function Refilled(cfg: Config, b: Bucket, now: int): Bucket {
    var effective := Later(now, b.lastRefill);
    if effective > b.lastRefill then
      Bucket(Capped(b.tokens + Gain(cfg.refillRate, Since(b.lastRefill, effective)), cfg.capacity),
             effective, Later(effective, b.lastSeen))
    else b.(lastSeen := Later(effective, b.lastSeen))
  }

  function Ceil(x: real): int {
    -((-x).Floor)
  }

  function DurationForTokens(tokens: real, rate: real): int
    requires rate > 0.0
  {
    if tokens <= 0.0 then 0
    else
      var nanos := tokens / rate * SECOND as real;
      if nanos > MAX_DURATION as real then MAX_DURATION else Ceil(nanos)
  }

  function WholeTokens(tokens: real, capacity: int): int {
    if tokens <= 0.0 then 0
    else
      var value := (tokens + 0.000000001).Floor;
      if value < 0 then 0 else if value > capacity then capacity else value
  }

  /** The bucket after a call of `cost` that finds it as `b`. */
  function Charged(b: Bucket, cost: int): Bucket {
    if b.tokens >= cost as real then b.(tokens := b.tokens - cost as real) else b
  }

  function DecisionFor(cfg: Config, b: Bucket, cost: int): Decision
    requires cfg.Valid()
  {
    var after := Charged(b, cost);
    var remaining := WholeTokens(after.tokens, cfg.capacity);
    var reset := Some(b.lastRefill + DurationForTokens(cfg.capacity as real - after.tokens, cfg.refillRate));
    if b.tokens >= cost as real then Decision(true, remaining, 0, reset, Admitted)
    else Decision(false, remaining, DurationForTokens(cost as real - b.tokens, cfg.refillRate), reset, RateLimited)
  }

  // ----- The bucket map -----

  predicate Expired(cfg: Config, b: Bucket, now: int) {
    cfg.idleTTL > 0 && now >= b.lastSeen + cfg.idleTTL
  }

  function Cleaned(cfg: Config, buckets: Buckets, now: int): Buckets {
    map k | k in buckets && !Expired(cfg, buckets[k], now) :: buckets[k]
  }

  predicate Older(b: Bucket, k: string, b': Bucket, k': string) {
    b.lastSeen < b'.lastSeen || (b.lastSeen == b'.lastSeen && Less(Bytes(k), Bytes(k')))
  }

  /** The key eviction removes: older than every other. */
  ghost predicate IsOldest(buckets: Buckets, k: string) {
    k in buckets && forall j :: j in buckets && j != k ==> Older(buckets[k], k, buckets[j], j)
  }

  /** There is at most one oldest key, whatever order the map is read in. */
  lemma OldestIsUnique(buckets: Buckets, k: string, j: string)
    requires IsOldest(buckets, k) && IsOldest(buckets, j)
    ensures k == j
  {
    LessTotal(Bytes(k), Bytes(j));
    BytesInjective(k, j);
  }

  lemma {:induction false} OldestExists(buckets: Buckets)
    requires buckets != map[]
    ensures exists k :: IsOldest(buckets, k)
    decreases |buckets|
  {
    var k :| k in buckets;
    var rest := buckets - {k};
    assert rest.Keys == buckets.Keys - {k};
    if rest == map[] {
      assert forall j :: j in buckets && j != k ==> j in rest;
      assert IsOldest(buckets, k);
    } else {
      OldestExists(rest);
      var j :| IsOldest(rest, j);
      OldestOfTwo(buckets, rest, k, j);
    }
  }

  lemma OldestOfTwo(buckets: Buckets, rest: Buckets, k: string, j: string)
    requires k in buckets && k !in rest && buckets == rest[k := buckets[k]] && IsOldest(rest, j)
    ensures IsOldest(buckets, if Older(buckets[k], k, buckets[j], j) then k else j)
  {
    LessTotal(Bytes(k), Bytes(j));
    BytesInjective(k, j);
    forall i | i in rest && i != j ensures Older(buckets[k], k, buckets[j], j) ==> Older(buckets[k], k, buckets[i], i) {
      assert Older(rest[j], j, rest[i], i);
      if Less(Bytes(k), Bytes(j)) && Less(Bytes(j), Bytes(i)) { LessTransitive(Bytes(k), Bytes(j), Bytes(i)); }
    }
  }

  ghost function OldestKey(buckets: Buckets): (k: string)
    requires buckets != map[]
    ensures IsOldest(buckets, k)
  {
    OldestExists(buckets);
    var k :| IsOldest(buckets, k);
    k
  }

  // ----- One call -----

  /** The map with a slot for a new key, and whether there is one. */
  ghost function MakeRoom(cfg: Config, buckets: Buckets, now: int): (Buckets, bool)
    requires cfg.Valid()
  {
    if |buckets| < cfg.maxClients then (buckets, true)
    else
      var cleaned := Cleaned(cfg, buckets, now);
      if |cleaned| < cfg.maxClients then (cleaned, true)
      else if cfg.overflow.RejectNew? then (cleaned, false)
      else (cleaned - {OldestKey(cleaned)}, true)
  }

  function Fresh(cfg: Config, now: int): Bucket {
    Bucket(cfg.capacity as real, now, now)
  }

  predicate Resident(cfg: Config, buckets: Buckets, key: string, now: int) {
    key in buckets && !Expired(cfg, buckets[key], now)
  }

  /** AllowN on a limiter holding `buckets`: the buckets after and the decision. */
  ghost function Allow(cfg: Config, buckets: Buckets, key: string, cost: int, now: int): (Buckets, Decision)
    requires cfg.Valid()
  {
    if !ValidKey(key) then (buckets, Denied(InvalidKey))
    else if cost < 1 || cost > cfg.capacity then (buckets, Denied(InvalidCost))
    else if Resident(cfg, buckets, key, now) then
      Charge(cfg, buckets, key, Refilled(cfg, buckets[key], now), cost)
    else if !MakeRoom(cfg, buckets - {key}, now).1 then
      (MakeRoom(cfg, buckets - {key}, now).0, Denied(OverCapacity))
    else
      Charge(cfg, MakeRoom(cfg, buckets - {key}, now).0, key, Fresh(cfg, now), cost)
  }

  ghost function Charge(cfg: Config, buckets: Buckets, key: string, b: Bucket, cost: int): (Buckets, Decision)
    requires cfg.Valid()
  {
    (buckets[key := Charged(b, cost)], DecisionFor(cfg, b, cost))
  }
}
