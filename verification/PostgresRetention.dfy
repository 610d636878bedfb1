/**
 * How long a replay row can last in PostgreSQL. A clean-up may leave an expired
 * row behind in two ways, and the lookup, which does not test expiry, then
 * answers from it.
 */
module PostgresRetention {
  import opened Items
  import opened PostgresProtocol
  import opened PostgresRuns

  /** The rows of `ks`, all expired and free, expire no later than the row of `key`, which is not one of them. */
  ghost predicate Before(s: State, t: nat, now: int, key: Digest, ks: set<Digest>)
    requires key in s.rows
  {
    forall k :: k in ks ==> k != key && Eligible(s, t, now, k) && s.rows[k].expiresAt <= s.rows[key].expiresAt
  }

  /** A whole batch of other rows is due no later than the row of `key`. */
  ghost predicate Crowded(s: State, t: nat, now: int, key: Digest)
    requires key in s.rows
  {
    exists ks :: |ks| == CLEANUP_BATCH && Before(s, t, now, key, ks)
  }

  /** Some clean-up at `now` leaves the row of `key` behind. */
  ghost predicate CanSurvive(s: State, t: nat, now: int, key: Digest) {
    exists chosen :: IsBatch(s, t, now, chosen) && key !in chosen
  }

  // ----- Batches -----

  /** Among `from`, the rows of `chosen` come first, and there are `n` of them unless `from` runs out. */
  ghost predicate Earliest(rows: map<Digest, Row>, from: set<Digest>, n: nat, chosen: set<Digest>)
    requires from <= rows.Keys
  {
    && chosen <= from && |chosen| <= n && (|chosen| < n ==> chosen == from)
    && forall j, k :: j in chosen && k in from - chosen ==> rows[j].expiresAt <= rows[k].expiresAt
  }

  lemma {:induction false} FirstToExpire(rows: map<Digest, Row>, from: set<Digest>) returns (first: Digest)
    requires from <= rows.Keys && from != {}
    ensures first in from && forall k :: k in from ==> rows[first].expiresAt <= rows[k].expiresAt
    decreases |from|
  {
    var k :| k in from;
    if from == {k} {
      first := k;
    } else {
      var rest := from - {k};
      assert from == rest + {k};
      first := FirstToExpire(rows, rest);
      if rows[k].expiresAt < rows[first].expiresAt { first := k; }
    }
  }

  lemma {:induction false} EarliestExist(rows: map<Digest, Row>, from: set<Digest>, n: nat)
      returns (chosen: set<Digest>)
    requires from <= rows.Keys
    ensures Earliest(rows, from, n, chosen)
    decreases n
  {
    if n == 0 {
      chosen := {};
    } else {
      chosen := EarliestExist(rows, from, n - 1);
      if chosen != from {
        assert from == chosen + (from - chosen);
        var first := FirstToExpire(rows, from - chosen);
        chosen := chosen + {first};
      }
    }
  }

  ghost function Due(s: State, t: nat, now: int): set<Digest> {
    set k | k in s.rows && Eligible(s, t, now, k)
  }

  lemma EarliestIsBatch(s: State, t: nat, now: int, chosen: set<Digest>)
    requires Earliest(s.rows, Due(s, t, now), CLEANUP_BATCH, chosen)
    ensures IsBatch(s, t, now, chosen)
  {
  }

  /** If a row is not due, or a batch of others is due before it, some batch leaves it out. */
  lemma BatchWithout(s: State, t: nat, now: int, key: Digest) returns (chosen: set<Digest>)
    requires key in s.rows && (RowLockedByOther(s, t, key) || Crowded(s, t, now, key))
    ensures IsBatch(s, t, now, chosen) && key !in chosen
  {
    if RowLockedByOther(s, t, key) {
      chosen := EarliestExist(s.rows, Due(s, t, now), CLEANUP_BATCH);
      EarliestIsBatch(s, t, now, chosen);
    } else {
      var ks :| |ks| == CLEANUP_BATCH && Before(s, t, now, key, ks);
      var from := Due(s, t, now) - {key};
      chosen := EarliestExist(s.rows, from, CLEANUP_BATCH);
      EarliestAreBefore(s.rows, from, chosen, ks, s.rows[key].expiresAt);
      EarliestIsBatch(s, t, now, chosen);
    }
  }

  /** With a batch of rows due by `limit`, the earliest batch is full and due by `limit` too. */
  lemma EarliestAreBefore(rows: map<Digest, Row>, from: set<Digest>, chosen: set<Digest>, ks: set<Digest>, limit: int)
    requires from <= rows.Keys && Earliest(rows, from, CLEANUP_BATCH, chosen) && ks <= from && |ks| == CLEANUP_BATCH
    requires forall k :: k in ks ==> rows[k].expiresAt <= limit
    ensures |chosen| == CLEANUP_BATCH && forall j :: j in chosen ==> rows[j].expiresAt <= limit
  {
    if |chosen| < CLEANUP_BATCH { SubsetSize(ks, chosen); }
    forall j | j in chosen ensures rows[j].expiresAt <= limit {
      if ks != chosen && j !in ks {
        OneLeftOut(ks, chosen, j);
        var k :| k in ks && k !in chosen;
        assert k in from - chosen;
      }
    }
  }

  lemma OneLeftOut(ks: set<Digest>, chosen: set<Digest>, j: Digest)
    requires |ks| == |chosen| && j in chosen && j !in ks
    ensures exists k :: k in ks && k !in chosen
  {
    if ks <= chosen { SubsetSize(ks, chosen - {j}); }
  }

  /**
   * The exact condition: an expired row can outlive a clean-up if and only if
   * another transaction locks it, or at least a whole batch of other expired
   * rows that nobody locks expire no later than it.
   */
  lemma ExpiredRowSurvivesIff(s: State, t: nat, now: int, key: Digest)
    requires key in s.rows && s.rows[key].expiresAt <= now
    ensures CanSurvive(s, t, now, key) <==> RowLockedByOther(s, t, key) || Crowded(s, t, now, key)
  {
    if CanSurvive(s, t, now, key) && !RowLockedByOther(s, t, key) {
      var chosen :| IsBatch(s, t, now, chosen) && key !in chosen;
      assert Eligible(s, t, now, key);
      assert Before(s, t, now, key, chosen);
    }
    if RowLockedByOther(s, t, key) || Crowded(s, t, now, key) {
      var chosen := BatchWithout(s, t, now, key);
    }
  }

  // ----- What the lookup then sees -----

  /** The phase of a transaction that is answered from the row of its key. */
  function FromRow(s: State, tx: Tx): Phase
    requires tx.key in s.rows && s.rows[tx.key].itemId in s.items
  {
    if s.rows[tx.key].requestHash == tx.fingerprint then Hit(s.items[s.rows[tx.key].itemId])
    else Leaving(Failure(IdempotencyConflict))
  }

  /** Transaction `t` has its lock, is about to clean up, and the row of its own key is past its expiry. */
  ghost predicate OwnRowExpired(s: State, t: nat, now: int) {
    t in s.txs && s.txs[t].phase.Locked? && s.txs[t].key in s.rows && s.rows[s.txs[t].key].expiresAt <= now
  }

  /** Nothing happens, or one other transaction gives up. */
  ghost predicate Calmed(s: State, t: nat, calm: State, lock: Digest -> int) {
    calm == s || exists u :: u != t && Enabled(s, Abort(u, Canceled)) && calm == Step(s, Abort(u, Canceled), lock)
  }

  /** The clean-up takes `chosen`, perhaps another transaction gives up, and the lookup answers from the expired row. */
  ghost predicate StaleLookup(s: State, t: nat, now: int, lock: Digest -> int, chosen: set<Digest>, calm: State)
    requires OwnRowExpired(s, t, now)
  {
    && IsBatch(s, t, now, chosen)
    && Calmed(Step(s, Sweep(t, now, chosen), lock), t, calm, lock)
    && Enabled(calm, Lookup(t)) && calm.rows == s.rows && calm.items == s.items
    && s.rows[s.txs[t].key].itemId in s.items
    && Step(calm, Lookup(t), lock).txs[t].phase == FromRow(s, s.txs[t])
  }

  /** Only a clean-up can lock another key's row while this transaction holds its key's lock. */
  lemma HolderIsASweeper(s: State, t: nat, u: nat, lock: Digest -> int)
    requires Inv(s, lock) && t in s.txs && u in s.txs && u != t && s.txs[t].locked
    ensures !(s.txs[u].rowLock && s.txs[u].key == s.txs[t].key)
  {
    assert Apart(s.txs[t], s.txs[u], lock) && Shape(s.txs[u]);
  }

  lemma SweepLeavesOthers(s: State, t: nat, now: int, chosen: set<Digest>, lock: Digest -> int)
    requires t in s.txs && s.txs[t].phase.Locked? && IsBatch(s, t, now, chosen)
    ensures forall k :: RowLockedByOther(Step(s, Sweep(t, now, chosen), lock), t, k) <==> RowLockedByOther(s, t, k)
  {
    var swept := Step(s, Sweep(t, now, chosen), lock);
    assert forall u :: u != t ==> (u in swept.txs <==> u in s.txs) && (u in s.txs ==> swept.txs[u] == s.txs[u]);
  }

  /** A row that no other transaction locks is answered from at once. */
  lemma FreeSurvivorIsAnswered(s: State, t: nat, now: int, chosen: set<Digest>, lock: Digest -> int)
    requires Inv(s, lock) && OwnRowExpired(s, t, now) && IsBatch(s, t, now, chosen) && s.txs[t].key !in chosen
    requires !RowLockedByOther(s, t, s.txs[t].key)
    ensures StaleLookup(s, t, now, lock, chosen, Step(s, Sweep(t, now, chosen), lock))
  {
    SweepLeavesOthers(s, t, now, chosen, lock);
    AnsweredWhenFree(s, t, now, chosen, Step(s, Sweep(t, now, chosen), lock), lock);
  }

  /** No two transactions delete one row, so when the deleting one gives up the row is free. */
  lemma AbortFreesTheRow(s: State, t: nat, u: nat, lock: Digest -> int)
    requires Inv(s, lock) && t in s.txs && s.txs[t].locked
    requires u in s.txs && u != t && s.txs[t].key in s.txs[u].deletes
    ensures Enabled(s, Abort(u, Canceled))
    ensures !RowLockedByOther(Step(s, Abort(u, Canceled), lock), t, s.txs[t].key)
  {
    assert Shape(s.txs[u]);
    var key := s.txs[t].key;
    var calm := Step(s, Abort(u, Canceled), lock);
    forall v | v in calm.txs && v != t
      ensures key !in calm.txs[v].deletes && !(calm.txs[v].rowLock && calm.txs[v].key == key)
    {
      if v != u {
        HolderIsASweeper(s, t, v, lock);
        assert Apart(s.txs[u], s.txs[v], lock);
      }
    }
  }

  /** A row that another transaction is deleting is answered from once that one gives up. */
  lemma LockedSurvivorIsAnswered(s: State, t: nat, u: nat, now: int, chosen: set<Digest>, lock: Digest -> int)
    requires Inv(s, lock) && OwnRowExpired(s, t, now) && IsBatch(s, t, now, chosen) && s.txs[t].key !in chosen
    requires u in s.txs && u != t && s.txs[t].key in s.txs[u].deletes
    ensures var swept := Step(s, Sweep(t, now, chosen), lock);
            && Enabled(swept, Abort(u, Canceled))
            && StaleLookup(s, t, now, lock, chosen, Step(swept, Abort(u, Canceled), lock))
  {
    var swept := Step(s, Sweep(t, now, chosen), lock);
    assert Inv(swept, lock) by { StepKeepsInv(s, Sweep(t, now, chosen), lock); }
    assert Shape(s.txs[t]);
    AbortFreesTheRow(swept, t, u, lock);
    AnsweredWhenFree(s, t, now, chosen, Step(swept, Abort(u, Canceled), lock), lock);
  }

  lemma AnsweredWhenFree(s: State, t: nat, now: int, chosen: set<Digest>, calm: State, lock: Digest -> int)
    requires OriginsFit(s) && OwnRowExpired(s, t, now) && IsBatch(s, t, now, chosen) && s.txs[t].key !in chosen
    requires Calmed(Step(s, Sweep(t, now, chosen), lock), t, calm, lock) && !RowLockedByOther(calm, t, s.txs[t].key)
    ensures StaleLookup(s, t, now, lock, chosen, calm)
  {
  }

  /** Whatever the others do in between, a row the clean-up took is not seen by the lookup: the key counts as new. */
  lemma SweptRowIsGone(s: State, t: nat, now: int, chosen: set<Digest>, calm: State, lock: Digest -> int)
    requires Enabled(s, Sweep(t, now, chosen)) && s.txs[t].key in chosen
    requires Enabled(calm, Lookup(t)) && calm.txs[t] == Step(s, Sweep(t, now, chosen), lock).txs[t]
    ensures Step(calm, Lookup(t), lock).txs[t].phase.Vacant?
  {
  }

  /**
   * A request whose own row has expired can still be answered from it if and only
   * if another transaction locks the row at the clean-up, or a whole batch of
   * other expired rows is due no later.
   */
  lemma StaleAnswerIff(s: State, t: nat, now: int, lock: Digest -> int)
    requires Inv(s, lock) && OwnRowExpired(s, t, now)
    ensures (exists chosen, calm :: StaleLookup(s, t, now, lock, chosen, calm)) <==>
            RowLockedByOther(s, t, s.txs[t].key) || Crowded(s, t, now, s.txs[t].key)
  {
    var key := s.txs[t].key;
    ExpiredRowSurvivesIff(s, t, now, key);
    if chosen, calm :| StaleLookup(s, t, now, lock, chosen, calm) {
      StaleLookupNeedsSurvivor(s, t, now, lock, chosen, calm);
    }
    if RowLockedByOther(s, t, key) || Crowded(s, t, now, key) {
      var chosen, calm := SurvivorIsAnswered(s, t, now, lock);
    }
  }

  lemma StaleLookupNeedsSurvivor(s: State, t: nat, now: int, lock: Digest -> int, chosen: set<Digest>, calm: State)
    requires OwnRowExpired(s, t, now) && StaleLookup(s, t, now, lock, chosen, calm)
    ensures CanSurvive(s, t, now, s.txs[t].key)
  {
    assert calm.txs[t] == Step(s, Sweep(t, now, chosen), lock).txs[t];
    if s.txs[t].key in chosen { SweptRowIsGone(s, t, now, chosen, calm, lock); }
  }

  lemma SurvivorIsAnswered(s: State, t: nat, now: int, lock: Digest -> int) returns (chosen: set<Digest>, calm: State)
    requires Inv(s, lock) && OwnRowExpired(s, t, now)
    requires RowLockedByOther(s, t, s.txs[t].key) || Crowded(s, t, now, s.txs[t].key)
    ensures StaleLookup(s, t, now, lock, chosen, calm)
  {
    var key := s.txs[t].key;
    chosen := BatchWithout(s, t, now, key);
    if RowLockedByOther(s, t, key) {
      var u :| u in s.txs && u != t && (key in s.txs[u].deletes || (s.txs[u].rowLock && s.txs[u].key == key));
      assert Shape(s.txs[t]);
      HolderIsASweeper(s, t, u, lock);
      LockedSurvivorIsAnswered(s, t, u, now, chosen, lock);
      calm := Step(Step(s, Sweep(t, now, chosen), lock), Abort(u, Canceled), lock);
    } else {
      FreeSurvivorIsAnswered(s, t, now, chosen, lock);
      calm := Step(s, Sweep(t, now, chosen), lock);
    }
  }

  // ----- Both ways happen -----

  /** The client has been sent a replay of a row that had expired by the transaction's own clean-up clock. */
  ghost predicate StaleReplay(s: State, t: nat) {
    && t in s.txs && s.txs[t].phase.Ended? && s.txs[t].phase.response.Success? && s.txs[t].phase.response.replayed
    && s.txs[t].key in s.rows && s.rows[s.txs[t].key].expiresAt <= s.txs[t].sweptAt
  }

  /** From any reachable moment that meets the condition, a retry can be sent a stale replay. */
  lemma StaleReplayIsReachable(s: State, t: nat, now: int, lock: Digest -> int) returns (end: State)
    requires Reachable(s, lock) && OwnRowExpired(s, t, now)
    requires s.rows[s.txs[t].key].requestHash == s.txs[t].fingerprint
    requires RowLockedByOther(s, t, s.txs[t].key) || Crowded(s, t, now, s.txs[t].key)
    ensures Reachable(end, lock) && StaleReplay(end, t)
    ensures end.txs[t].key == s.txs[t].key && end.rows.Keys <= s.rows.Keys
  {
    assert Inv(s, lock) by { ReachableKeepsInv(s, lock); }
    var chosen, calm := SurvivorIsAnswered(s, t, now, lock);
    CalmIsReachable(s, t, now, lock, chosen, calm);
    end := HitCommits(calm, t, lock);
  }

  lemma CalmIsReachable(s: State, t: nat, now: int, lock: Digest -> int, chosen: set<Digest>, calm: State)
    requires Reachable(s, lock) && OwnRowExpired(s, t, now) && StaleLookup(s, t, now, lock, chosen, calm)
    ensures Reachable(calm, lock) && calm.txs[t] == s.txs[t].(phase := Swept, deletes := chosen, sweptAt := now)
  {
    var swept := Step(s, Sweep(t, now, chosen), lock);
    StepIsReachable(s, Sweep(t, now, chosen), lock);
    if calm != swept {
      var u :| u != t && Enabled(swept, Abort(u, Canceled)) && calm == Step(swept, Abort(u, Canceled), lock);
      StepIsReachable(swept, Abort(u, Canceled), lock);
    }
  }

  /** A lookup that hits an expired row, then the commit. */
  lemma HitCommits(s: State, t: nat, lock: Digest -> int) returns (end: State)
    requires Reachable(s, lock) && Enabled(s, Lookup(t)) && Step(s, Lookup(t), lock).txs[t].phase.Hit?
    requires s.txs[t].key in s.rows && s.rows[s.txs[t].key].expiresAt <= s.txs[t].sweptAt
    ensures Reachable(end, lock) && StaleReplay(end, t)
    ensures end.txs[t].key == s.txs[t].key && end.rows.Keys <= s.rows.Keys
  {
    var found := Step(s, Lookup(t), lock);
    StepIsReachable(s, Lookup(t), lock);
    StepIsReachable(found, Commit(t, None), lock);
    end := Step(found, Commit(t, None), lock);
    assert Shape(found.txs[t]) && Fits(found, found.txs[t]) by { ReachableKeepsInv(found, lock); }
  }
}
