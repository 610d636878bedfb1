/** What a decision of the limiter says, and exactly when a call is granted. */
module RateLimitDecisions {
  import opened Items
  import opened GoStrings
  import opened Unicode
  import opened RateLimit
  import opened RateLimitRuns
  import opened RateLimitRetry

  // ----- Keys -----

  predicate AllPlain(vs: seq<int>) {
    forall i :: 0 <= i < |vs| ==> !IsSpace(vs[i]) && !IsControl(vs[i])
  }

  lemma {:induction false} PlainText(vs: seq<int>)
    requires AllScalar(vs)
    ensures PlainRunes(Text(vs)) <==> AllPlain(vs)
  {
    if vs == [] {
    } else {
      PlainText(vs[1..]);
      EncodedInFront(vs[0], Text(vs[1..]));
      SpaceRunes(vs[0]);
      ControlRunes(vs[0]);
      AllOfSeq(vs, v => !IsSpace(v) && !IsControl(v));
    }
  }

  /** The keys that are counted: 1 to 256 bytes of text without white space and control characters. */
  lemma ValidKeys(key: string)
    ensures ValidKey(key) <==>
            1 <= |key| <= 256 && exists vs :: AllScalar(vs) && Text(vs) == key && AllPlain(vs)
  {
    if ValidUtf8(key) {
      var vs := Utf8IsText(key);
      PlainText(vs);
      if PlainRunes(key) { assert AllPlain(vs); }
    }
    forall vs | AllScalar(vs) && Text(vs) == key && AllPlain(vs) ensures ValidUtf8(key) && PlainRunes(key) {
      TextIsUtf8(vs);
      PlainText(vs);
    }
  }

  // ----- The kinds of decisions -----

  /** The other clients whose buckets a call at `now` has to leave in the map. */
  ghost function LiveOthers(cfg: Config, buckets: Buckets, key: string, now: int): set<string> {
    set k | k in buckets && k != key && !(cfg.idleTTL > 0 && now - buckets[k].lastSeen >= cfg.idleTTL)
  }

  /** A new client finds no slot: as many live others as the bound allows, and newcomers are turned away. */
  ghost predicate NoSlot(cfg: Config, buckets: Buckets, key: string, now: int) {
    && cfg.overflow.RejectNew?
    && !(key in buckets && !(cfg.idleTTL > 0 && now - buckets[key].lastSeen >= cfg.idleTTL))
    && |LiveOthers(cfg, buckets, key, now)| >= cfg.maxClients
  }

  lemma RoomFor(cfg: Config, buckets: Buckets, key: string, now: int)
    requires cfg.Valid() && cfg.overflow.RejectNew?
    ensures !MakeRoom(cfg, buckets - {key}, now).1 <==> |LiveOthers(cfg, buckets, key, now)| >= cfg.maxClients
    ensures !MakeRoom(cfg, buckets - {key}, now).1 ==>
              MakeRoom(cfg, buckets - {key}, now).0.Keys == LiveOthers(cfg, buckets, key, now)
  {
    var others := buckets - {key};
    assert Cleaned(cfg, others, now).Keys == LiveOthers(cfg, buckets, key, now);
    CleanedKeeps(cfg, others, now);
  }

  /** The reason of every decision, by what the caller sends and what the map holds. */
  lemma ReasonIs(cfg: Config, buckets: Buckets, key: string, cost: int, now: int)
    requires cfg.Valid()
    ensures var reason := Allow(cfg, buckets, key, cost, now).1.reason;
            if !ValidKey(key) then reason == InvalidKey
            else if !(1 <= cost <= cfg.capacity) then reason == InvalidCost
            else if NoSlot(cfg, buckets, key, now) then reason == OverCapacity
            else reason == Admitted || reason == RateLimited
  {
    if cfg.overflow.RejectNew? {
      RoomFor(cfg, buckets, key, now);
    }
  }

  /** Only an answer of a bucket carries numbers, and only a short bucket a waiting time. */
  lemma DecisionFits(cfg: Config, buckets: Buckets, key: string, cost: int, now: int)
    requires cfg.Valid()
    ensures var d := Allow(cfg, buckets, key, cost, now).1;
            && (d.allowed <==> d.reason == Admitted)
            && (d.reset.Some? <==> d.reason == Admitted || d.reason == RateLimited)
            && (d.reset.None? ==> d.remaining == 0)
            && d.retryAfter >= 0 && (d.retryAfter > 0 <==> d.reason == RateLimited)
  {
    if Allow(cfg, buckets, key, cost, now).1.reason.RateLimited? {
      DenialNeedsResident(cfg, buckets, key, cost, now);
      WaitIsPositive(cfg.refillRate, cost as real - Refilled(cfg, buckets[key], now).tokens);
    }
  }

  lemma WaitIsPositive(rate: real, missing: real)
    requires rate > 0.0 && missing > 0.0
    ensures DurationForTokens(missing, rate) > 0
  {
    var wait := missing / rate * SECOND as real;
    assert missing / rate > 0.0;
    CeilIsLeast(wait, 0);
  }

  // ----- Remaining -----

  /** `remaining` is the whole part of the tokens the call leaves, up to the rounding slack. */
  ghost predicate IsWholePart(cfg: Config, tokens: real, remaining: int) {
    && 0 <= remaining <= cfg.capacity
    && remaining as real <= tokens + 0.000000001
    && forall n: nat :: Covers(tokens, n) ==> n <= remaining
  }

  predicate Covers(tokens: real, cost: int) {
    cost as real <= tokens
  }

  lemma WholeTokensIsWholePart(cfg: Config, tokens: real)
    requires cfg.Valid() && 0.0 <= tokens <= cfg.capacity as real
    ensures IsWholePart(cfg, tokens, WholeTokens(tokens, cfg.capacity))
  {
    RemainingIsWholeTokens(cfg, tokens, 0);
    forall n: nat | Covers(tokens, n) ensures n <= WholeTokens(tokens, cfg.capacity) {
      RemainingIsWholeTokens(cfg, tokens, n);
    }
  }

  lemma ChargeLeaves(cfg: Config, buckets: Buckets, key: string, b: Bucket, cost: int)
    requires cfg.Valid() && BucketFits(cfg, b) && 1 <= cost
    ensures var (after, d) := Charge(cfg, buckets, key, b, cost);
            IsWholePart(cfg, after[key].tokens, d.remaining)
  {
    WholeTokensIsWholePart(cfg, Charged(b, cost).tokens);
  }

  /** The bucket that answers a call, as the call finds it. */
  lemma AnswersFromBucket(cfg: Config, buckets: Buckets, key: string, cost: int, now: int)
      returns (room: Buckets, b: Bucket)
    requires cfg.Valid() && Inv(cfg, buckets)
    requires var reason := Allow(cfg, buckets, key, cost, now).1.reason; reason == Admitted || reason == RateLimited
    ensures BucketFits(cfg, b) && 1 <= cost <= cfg.capacity
    ensures Allow(cfg, buckets, key, cost, now) == Charge(cfg, room, key, b, cost)
  {
    if Resident(cfg, buckets, key, now) {
      room, b := buckets, Refilled(cfg, buckets[key], now);
      RefillKeepsFit(cfg, buckets[key], now);
    } else {
      room, b := MakeRoom(cfg, buckets - {key}, now).0, Fresh(cfg, now);
    }
  }

  /** Whatever a call finds, the `remaining` it reports is the whole part of the tokens it leaves in the bucket. */
  lemma RemainingIsWhatIsLeft(cfg: Config, buckets: Buckets, key: string, cost: int, now: int)
    requires cfg.Valid() && Inv(cfg, buckets)
    requires var reason := Allow(cfg, buckets, key, cost, now).1.reason; reason == Admitted || reason == RateLimited
    ensures var (after, d) := Allow(cfg, buckets, key, cost, now);
            key in after && IsWholePart(cfg, after[key].tokens, d.remaining)
  {
    var room, b := AnswersFromBucket(cfg, buckets, key, cost, now);
    ChargeLeaves(cfg, room, key, b, cost);
  }

  /**
   * The `reset` a call reports is the first instant at which the bucket it leaves,
   * not charged again, is full, unless it is clipped at the largest duration.
   */
  lemma ResetIsWhenFullAgain(cfg: Config, buckets: Buckets, key: string, cost: int, now: int, later: int)
    requires cfg.Valid() && Inv(cfg, buckets)
    requires var reason := Allow(cfg, buckets, key, cost, now).1.reason; reason == Admitted || reason == RateLimited
    ensures var (after, d) := Allow(cfg, buckets, key, cost, now);
            && key in after && d.reset.Some?
            && (later >= after[key].lastRefill && later < d.reset.value ==>
                  Refilled(cfg, after[key], later).tokens < cfg.capacity as real)
            && (later >= d.reset.value && d.reset.value < after[key].lastRefill + MAX_DURATION ==>
                  Refilled(cfg, after[key], later).tokens == cfg.capacity as real)
  {
    var room, b := AnswersFromBucket(cfg, buckets, key, cost, now);
    ResetIsNotEarlier(cfg, b, cost);
    if later >= b.lastRefill {
      ResetIsWhenFull(cfg, b, cost, later);
    }
  }

  lemma ResetIsNotEarlier(cfg: Config, b: Bucket, cost: int)
    requires cfg.Valid()
    ensures DecisionFor(cfg, b, cost).reset.Some? && DecisionFor(cfg, b, cost).reset.value >= b.lastRefill
  {
    var missing := cfg.capacity as real - Charged(b, cost).tokens;
    if missing > 0.0 {
      WaitIsPositive(cfg.refillRate, missing);
    }
  }

  lemma RemainingAt(cfg: Config, states: seq<Buckets>, calls: seq<Call>, decisions: seq<Decision>, i: nat)
    requires cfg.Valid() && IsRun(cfg, states, calls) && Decides(cfg, states, calls, decisions) && i < |calls|
    requires calls[i].Ask? && (decisions[i].reason == Admitted || decisions[i].reason == RateLimited)
    ensures calls[i].key in states[i + 1]
    ensures IsWholePart(cfg, states[i + 1][calls[i].key].tokens, decisions[i].remaining)
  {
    assert IsStep(cfg, states, calls, i) && DecidesAt(cfg, states, calls, decisions, i);
    RunKeepsInv(cfg, states, calls, i);
    RemainingIsWhatIsLeft(cfg, states[i], calls[i].key, calls[i].cost, calls[i].now);
  }

  /** Buckets with the same refill time and no grant between them hold the same tokens. */
  lemma SameTimeSameTokens(cfg: Config, b0: Bucket, b: Bucket, now: int)
    requires cfg.Valid() && BucketFits(cfg, b0) && BucketFits(cfg, b)
    requires KeepsUp(cfg, b0, b) && Level(cfg, b) <= Level(cfg, b0) && Later(now, b.lastRefill) == b0.lastRefill
    ensures Refilled(cfg, b, now).tokens == b0.tokens
  {
    assert Gain(cfg.refillRate, 0) == 0.0;
  }

  /**
   * Along every run: after a call that was answered from its bucket, a further
   * call of the same key, at the same effective time, with the bucket still there
   * and nothing granted in between, is granted only a cost of at most `remaining`,
   * and any cost the tokens cover.
   */
  lemma RemainingIsGranted(
      cfg: Config, states: seq<Buckets>, calls: seq<Call>, decisions: seq<Decision>, i: nat, j: nat)
    requires cfg.Valid() && IsRun(cfg, states, calls) && Decides(cfg, states, calls, decisions) && i < j < |calls|
    requires calls[i].Ask? && (decisions[i].reason == Admitted || decisions[i].reason == RateLimited)
    requires calls[j].Ask? && calls[j].key == calls[i].key && 1 <= calls[j].cost <= cfg.capacity
    requires StaysResident(cfg, states, calls, calls[i].key, i + 1, j + 1)
    requires NoGrants(cfg, states, calls, calls[i].key, i + 1, j)
    requires calls[i].key in states[i + 1] && calls[i].key in states[j]
    requires Later(calls[j].now, states[j][calls[i].key].lastRefill) == states[i + 1][calls[i].key].lastRefill
    ensures decisions[j].allowed ==> calls[j].cost <= decisions[i].remaining
    ensures decisions[j].allowed <==> Covers(states[i + 1][calls[i].key].tokens, calls[j].cost)
  {
    var key := calls[i].key;
    RemainingAt(cfg, states, calls, decisions, i);
    BucketsBetween(cfg, states, calls, key, i + 1, j);
    SameTimeSameTokens(cfg, states[i + 1][key], states[j][key], calls[j].now);
    GrantedAtCall(cfg, states, calls, decisions, i + 1, j);
    var cost: nat := calls[j].cost;
    assert decisions[j].allowed <==> Covers(states[i + 1][key].tokens, cost);
  }

  /** A call on a resident bucket is granted exactly when the refilled bucket covers it. */
  lemma GrantedAtCall(
      cfg: Config, states: seq<Buckets>, calls: seq<Call>, decisions: seq<Decision>, i: nat, j: nat)
    requires cfg.Valid() && IsRun(cfg, states, calls) && Decides(cfg, states, calls, decisions) && i <= j < |calls|
    requires calls[j].Ask? && 1 <= calls[j].cost <= cfg.capacity
    requires StaysResident(cfg, states, calls, calls[j].key, i, j + 1)
    ensures calls[j].key in states[j]
    ensures decisions[j].allowed <==>
            Refilled(cfg, states[j][calls[j].key], calls[j].now).tokens >= calls[j].cost as real
  {
    assert DecidesAt(cfg, states, calls, decisions, j);
    ResidentAt(cfg, states, calls, calls[j].key, i, j);
    assert ValidKey(calls[j].key) by { RunKeepsInv(cfg, states, calls, j); }
  }

  // ----- Exactly when a call is granted -----

  /** In n seconds n times the rate comes in. */
  lemma GainPerSecond(rate: real, n: int)
    ensures Gain(rate, n * SECOND) == n as real * rate
  {
  }

  /** A gap longer than the largest duration refills no more than that duration does. */
  lemma LongGapsAreClipped(cfg: Config, b: Bucket, now: int)
    requires cfg.Valid() && now - b.lastRefill >= 0x7FFF_FFFF_FFFF_FFFF
    ensures Refilled(cfg, b, now) ==
            Bucket(Capped(b.tokens + Gain(cfg.refillRate, 0x7FFF_FFFF_FFFF_FFFF), cfg.capacity), now,
                   Later(now, b.lastSeen))
  {
  }

  /**
   * A bucket from its creation at step `i` on: full but for what that step
   * grants, and then at every step refilled, capped and charged.
   */
  ghost predicate Drips(cfg: Config, tokens: seq<real>, gains: seq<int>, grants: seq<int>, i: nat, j: nat)
    requires i < j < |tokens| && j <= |gains| && j <= |grants|
  {
    && tokens[i + 1] == (cfg.capacity - grants[i]) as real
    && forall n :: i < n < j ==>
         tokens[n + 1] == Capped(tokens[n] + Gain(cfg.refillRate, gains[n]), cfg.capacity) - grants[n] as real
  }

  /** What the window that opens full at step `m` leaves at `n`: capacity plus refill minus grants. */
  ghost function Left(cfg: Config, gains: seq<int>, grants: seq<int>, m: nat, n: nat): real
    requires m < n <= |gains| && n <= |grants|
  {
    cfg.capacity as real + Gain(cfg.refillRate, Sum(gains, m + 1, n)) - Sum(grants, m, n) as real
  }

  lemma LeftGrows(cfg: Config, gains: seq<int>, grants: seq<int>, m: nat, n: nat)
    requires m < n < |gains| && n < |grants|
    ensures Left(cfg, gains, grants, m, n + 1) ==
            Left(cfg, gains, grants, m, n) + Gain(cfg.refillRate, gains[n]) - grants[n] as real
  {
    GainAdds(cfg.refillRate, Sum(gains, m + 1, n), gains[n]);
  }

  lemma LeftStarts(cfg: Config, gains: seq<int>, grants: seq<int>, m: nat)
    requires m < |gains| && m < |grants|
    ensures Left(cfg, gains, grants, m, m + 1) == (cfg.capacity - grants[m]) as real
  {
    assert Sum(gains, m + 1, m + 1) == 0 && Sum(grants, m, m) == 0;
    assert Sum(grants, m, m + 1) == grants[m];
    assert Gain(cfg.refillRate, 0) == 0.0;
  }

  lemma {:induction false} NoWindowLeavesLess(
      cfg: Config, tokens: seq<real>, gains: seq<int>, grants: seq<int>, i: nat, j: nat, m: nat, n: nat)
    requires i < j < |tokens| && j <= |gains| && j <= |grants| && Drips(cfg, tokens, gains, grants, i, j)
    requires i <= m < n <= j
    ensures tokens[n] <= Left(cfg, gains, grants, m, n)
    decreases n
  {
    if m + 1 == n {
      LeftStarts(cfg, gains, grants, m);
    } else {
      NoWindowLeavesLess(cfg, tokens, gains, grants, i, j, m, n - 1);
      LeftGrows(cfg, gains, grants, m, n - 1);
      assert tokens[(n - 1) + 1] <= tokens[n - 1] + Gain(cfg.refillRate, gains[n - 1]) - grants[n - 1] as real;
    }
  }

  lemma {:induction false} SomeWindowLeavesThis(
      cfg: Config, tokens: seq<real>, gains: seq<int>, grants: seq<int>, i: nat, j: nat, n: nat) returns (m: nat)
    requires i < j < |tokens| && j <= |gains| && j <= |grants| && Drips(cfg, tokens, gains, grants, i, j)
    requires i < n <= j
    ensures i <= m < n && tokens[n] == Left(cfg, gains, grants, m, n)
    decreases n
  {
    if i + 1 == n {
      m := i;
      LeftStarts(cfg, gains, grants, i);
    } else {
      var refilled := tokens[n - 1] + Gain(cfg.refillRate, gains[n - 1]);
      assert tokens[(n - 1) + 1] == Capped(refilled, cfg.capacity) - grants[n - 1] as real;
      if refilled > cfg.capacity as real {
        m := n - 1;
        LeftStarts(cfg, gains, grants, n - 1);
      } else {
        m := SomeWindowLeavesThis(cfg, tokens, gains, grants, i, j, n - 1);
        LeftGrows(cfg, gains, grants, m, n - 1);
      }
    }
  }

  /** The tokens of the key's bucket, state by state; 0 where there is none. */
  ghost function Tokens(states: seq<Buckets>, key: string): (tokens: seq<real>)
    ensures |tokens| == |states|
    ensures forall n :: 0 <= n < |states| && key in states[n] ==> tokens[n] == states[n][key].tokens
  {
    seq(|states|, n requires 0 <= n < |states| => if key in states[n] then states[n][key].tokens else 0.0)
  }

  /** The time each step refills the key's bucket for, each at most the largest duration. */
  ghost function Refills(states: seq<Buckets>, key: string): (gains: seq<int>)
    requires states != []
    ensures |gains| == |states| - 1
    ensures forall n :: 0 <= n < |gains| && key in states[n] && key in states[n + 1] ==>
              gains[n] == Since(states[n][key].lastRefill, states[n + 1][key].lastRefill)
  {
    seq(|states| - 1, n requires 0 <= n < |states| - 1 =>
      if key in states[n] && key in states[n + 1] then Since(states[n][key].lastRefill, states[n + 1][key].lastRefill)
      else 0)
  }

  lemma CallDrips(cfg: Config, buckets: Buckets, call: Call, key: string)
    requires cfg.Valid() && Inv(cfg, buckets) && key in buckets && key in After(cfg, buckets, call)
    requires Charges(cfg, call, key) ==> !Expired(cfg, buckets[key], call.now)
    ensures var b, b' := buckets[key], After(cfg, buckets, call)[key];
            b'.tokens == Capped(b.tokens + Gain(cfg.refillRate, Since(b.lastRefill, b'.lastRefill)), cfg.capacity)
                         - GrantedAt(cfg, buckets, call, key) as real
  {
    assert Gain(cfg.refillRate, 0) == 0.0;
    if Charges(cfg, call, key) {
      assert Charged(Refilled(cfg, buckets[key], call.now), call.cost).lastRefill ==
             Later(call.now, buckets[key].lastRefill);
    } else {
      OtherCallsDoNotTouch(cfg, buckets, call, key);
    }
  }

  lemma RunCallDrips(cfg: Config, states: seq<Buckets>, calls: seq<Call>, key: string, i: nat, j: nat, n: nat)
    requires cfg.Valid() && IsRun(cfg, states, calls) && i <= n < j <= |calls|
    requires StaysResident(cfg, states, calls, key, i, j)
    ensures Tokens(states, key)[n + 1] ==
            Capped(Tokens(states, key)[n] + Gain(cfg.refillRate, Refills(states, key)[n]), cfg.capacity)
            - Grants(cfg, states, calls, key)[n] as real
  {
    assert key in states[n] && key in states[n + 1];
    assert IsStep(cfg, states, calls, n);
    assert Inv(cfg, states[n]) by { RunKeepsInv(cfg, states, calls, n); }
    CallDrips(cfg, states[n], calls[n], key);
  }

  /** Call `i` makes a new bucket for its key. */
  ghost predicate Opens(cfg: Config, states: seq<Buckets>, calls: seq<Call>, i: nat)
    requires |states| == |calls| + 1 && i < |calls|
  {
    && calls[i].Ask? && ValidKey(calls[i].key) && 1 <= calls[i].cost <= cfg.capacity
    && !Resident(cfg, states[i], calls[i].key, calls[i].now) && calls[i].key in states[i + 1]
  }

  /** Every bucket of every run was made by some call before, and has stayed since. */
  lemma {:induction false} BucketWasOpened(
      cfg: Config, states: seq<Buckets>, calls: seq<Call>, key: string, n: nat) returns (i: nat)
    requires cfg.Valid() && IsRun(cfg, states, calls) && n <= |calls| && key in states[n]
    ensures i < n && Opens(cfg, states, calls, i) && calls[i].key == key
    ensures StaysResident(cfg, states, calls, key, i + 1, n)
    decreases n
  {
    assert n > 0;
    if key in states[n - 1] && (Charges(cfg, calls[n - 1], key) ==>
                                  !Expired(cfg, states[n - 1][key], calls[n - 1].now)) {
      i := BucketWasOpened(cfg, states, calls, key, n - 1);
      StaysOneMore(cfg, states, calls, key, i + 1, n - 1);
    } else {
      i := n - 1;
      OpenedLast(cfg, states, calls, key, n - 1);
    }
  }

  lemma StaysOneMore(cfg: Config, states: seq<Buckets>, calls: seq<Call>, key: string, i: nat, n: nat)
    requires |states| == |calls| + 1 && i <= n < |calls| && StaysResident(cfg, states, calls, key, i, n)
    requires key in states[n] && key in states[n + 1]
    requires Charges(cfg, calls[n], key) ==> !Expired(cfg, states[n][key], calls[n].now)
    ensures StaysResident(cfg, states, calls, key, i, n + 1)
  {
  }

  lemma OpenedLast(cfg: Config, states: seq<Buckets>, calls: seq<Call>, key: string, n: nat)
    requires cfg.Valid() && IsRun(cfg, states, calls) && n < |calls| && key in states[n + 1]
    requires key in states[n] ==> Charges(cfg, calls[n], key) && Expired(cfg, states[n][key], calls[n].now)
    ensures Opens(cfg, states, calls, n) && calls[n].key == key
  {
    if key in states[n] {
      RunKeepsInv(cfg, states, calls, n);
    } else {
      assert IsStep(cfg, states, calls, n);
      OnlyItsOwnCallOpens(cfg, states[n], calls[n], key);
    }
  }

  lemma OnlyItsOwnCallOpens(cfg: Config, buckets: Buckets, call: Call, key: string)
    requires cfg.Valid() && key in After(cfg, buckets, call) && key !in buckets
    ensures Charges(cfg, call, key) && ValidKey(key)
  {
    if call.Ask? {
      RoomIsPart(cfg, buckets - {call.key}, call.now);
    }
  }

  lemma RoomIsPart(cfg: Config, buckets: Buckets, now: int)
    requires cfg.Valid()
    ensures MakeRoom(cfg, buckets, now).0.Keys <= buckets.Keys
  {
  }

  lemma OpeningFills(cfg: Config, states: seq<Buckets>, calls: seq<Call>, i: nat)
    requires cfg.Valid() && IsRun(cfg, states, calls) && i < |calls| && Opens(cfg, states, calls, i)
    ensures states[i + 1][calls[i].key].tokens ==
            (cfg.capacity - Grants(cfg, states, calls, calls[i].key)[i]) as real
  {
    assert IsStep(cfg, states, calls, i);
    var key := calls[i].key;
    RunKeepsInv(cfg, states, calls, i);
    RemovedIsSmaller(states[i], key);
    MakeRoomFits(cfg, states[i] - {key}, calls[i].now);
  }

  lemma RunDrips(cfg: Config, states: seq<Buckets>, calls: seq<Call>, i: nat, j: nat)
    requires cfg.Valid() && IsRun(cfg, states, calls) && i < j <= |calls| && Opens(cfg, states, calls, i)
    requires StaysResident(cfg, states, calls, calls[i].key, i + 1, j)
    ensures Drips(cfg, Tokens(states, calls[i].key), Refills(states, calls[i].key),
                  Grants(cfg, states, calls, calls[i].key), i, j)
  {
    OpeningFills(cfg, states, calls, i);
    forall n | i < n < j {
      RunCallDrips(cfg, states, calls, calls[i].key, i + 1, j, n);
    }
  }

  /** What a call of `key` at step `j` may take without overdrawing the window that opens at `m`. */
  ghost function Allowance(cfg: Config, states: seq<Buckets>, calls: seq<Call>, key: string, now: int, m: nat, j: nat)
    : real
    requires cfg.Valid() && |states| == |calls| + 1 && m < j <= |calls| && key in states[j]
  {
    var b := states[j][key];
    cfg.capacity as real
    + Gain(cfg.refillRate, Sum(Refills(states, key), m + 1, j) + Since(b.lastRefill, Later(now, b.lastRefill)))
    - Sum(Grants(cfg, states, calls, key), m, j) as real
  }

  lemma AllowanceIsLeft(
      cfg: Config, states: seq<Buckets>, calls: seq<Call>, key: string, now: int, m: nat, j: nat)
    requires cfg.Valid() && |states| == |calls| + 1 && m < j <= |calls| && key in states[j]
    ensures Allowance(cfg, states, calls, key, now, m, j) ==
            Left(cfg, Refills(states, key), Grants(cfg, states, calls, key), m, j)
            + Gain(cfg.refillRate, Since(states[j][key].lastRefill, Later(now, states[j][key].lastRefill)))
  {
    var b := states[j][key];
    GainAdds(cfg.refillRate, Sum(Refills(states, key), m + 1, j), Since(b.lastRefill, Later(now, b.lastRefill)));
  }

  lemma RefilledTokens(cfg: Config, b: Bucket, now: int)
    requires cfg.Valid() && BucketFits(cfg, b)
    ensures Refilled(cfg, b, now).tokens ==
            Capped(b.tokens + Gain(cfg.refillRate, Since(b.lastRefill, Later(now, b.lastRefill))), cfg.capacity)
  {
    assert Gain(cfg.refillRate, 0) == 0.0;
  }

  /**
   * The limiter's promise, exactly: from the call that makes a bucket on, while
   * it stays resident, a call of a permitted cost is granted if and only if no
   * window since then is overdrawn by it. A window opens at some call with a full
   * bucket and gains the refill of the time that passes; what is granted in it,
   * this call included, must not exceed the capacity and that refill.
   */
  lemma GrantedIffNoWindowIsOverdrawn(
      cfg: Config, states: seq<Buckets>, calls: seq<Call>, decisions: seq<Decision>, i: nat, j: nat)
    requires cfg.Valid() && IsRun(cfg, states, calls) && Decides(cfg, states, calls, decisions) && i < j < |calls|
    requires Opens(cfg, states, calls, i) && calls[j].Ask? && calls[j].key == calls[i].key
    requires 1 <= calls[j].cost <= cfg.capacity
    requires StaysResident(cfg, states, calls, calls[i].key, i + 1, j + 1)
    requires calls[i].key in states[j]
    ensures decisions[j].allowed <==>
            forall m :: i <= m < j ==>
              calls[j].cost as real <= Allowance(cfg, states, calls, calls[i].key, calls[j].now, m, j)
  {
    var key, now, cost := calls[i].key, calls[j].now, calls[j].cost;
    var b := states[j][key];
    var more := Gain(cfg.refillRate, Since(b.lastRefill, Later(now, b.lastRefill)));
    GrantedAtCall(cfg, states, calls, decisions, i + 1, j);
    assert decisions[j].allowed <==> b.tokens + more >= cost as real by {
      RunTokensFit(cfg, states, calls, j, key);
      RefilledTokens(cfg, b, now);
    }
    StaysResidentPrefix(cfg, states, calls, key, i + 1, j);
    LeastAllowance(cfg, states, calls, i, j, now);
  }

  /** Every bucket has such a beginning, so this decides every call that a resident bucket answers. */
  lemma EveryResidentCallIsDecided(
      cfg: Config, states: seq<Buckets>, calls: seq<Call>, decisions: seq<Decision>, j: nat) returns (i: nat)
    requires cfg.Valid() && IsRun(cfg, states, calls) && Decides(cfg, states, calls, decisions) && j < |calls|
    requires calls[j].Ask? && 1 <= calls[j].cost <= cfg.capacity
    requires Resident(cfg, states[j], calls[j].key, calls[j].now)
    ensures i < j && Opens(cfg, states, calls, i) && calls[i].key == calls[j].key
    ensures StaysResident(cfg, states, calls, calls[j].key, i + 1, j)
    ensures decisions[j].allowed <==>
            forall m :: i <= m < j ==>
              calls[j].cost as real <= Allowance(cfg, states, calls, calls[j].key, calls[j].now, m, j)
  {
    var key := calls[j].key;
    i := BucketWasOpened(cfg, states, calls, key, j);
    assert key in states[j + 1] by {
      assert IsStep(cfg, states, calls, j);
      assert ValidKey(key) by { RunKeepsInv(cfg, states, calls, j); }
    }
    StaysOneMore(cfg, states, calls, key, i + 1, j);
    GrantedIffNoWindowIsOverdrawn(cfg, states, calls, decisions, i, j);
  }

  /** The bucket and the time since hold the least that any window allows. */
  lemma LeastAllowance(cfg: Config, states: seq<Buckets>, calls: seq<Call>, i: nat, j: nat, now: int)
    requires cfg.Valid() && IsRun(cfg, states, calls) && i < j <= |calls| && Opens(cfg, states, calls, i)
    requires StaysResident(cfg, states, calls, calls[i].key, i + 1, j) && calls[i].key in states[j]
    ensures var key := calls[i].key;
            var b := states[j][key];
            var held := b.tokens + Gain(cfg.refillRate, Since(b.lastRefill, Later(now, b.lastRefill)));
            && (forall m :: i <= m < j ==> held <= Allowance(cfg, states, calls, key, now, m, j))
            && (exists m :: i <= m < j && held == Allowance(cfg, states, calls, key, now, m, j))
  {
    var key := calls[i].key;
    var tokens, gains, grants := Tokens(states, key), Refills(states, key), Grants(cfg, states, calls, key);
    RunDrips(cfg, states, calls, i, j);
    forall m | i <= m < j
      ensures tokens[j] <= Left(cfg, gains, grants, m, j)
      ensures Allowance(cfg, states, calls, key, now, m, j) == Left(cfg, gains, grants, m, j)
              + Gain(cfg.refillRate, Since(states[j][key].lastRefill, Later(now, states[j][key].lastRefill)))
    {
      NoWindowLeavesLess(cfg, tokens, gains, grants, i, j, m, j);
      AllowanceIsLeft(cfg, states, calls, key, now, m, j);
    }
    var m := SomeWindowLeavesThis(cfg, tokens, gains, grants, i, j, j);
    AllowanceIsLeft(cfg, states, calls, key, now, m, j);
  }
}
