/**
 * Runs from the empty database on: two in which a client is sent a replay of an
 * expired row, and one in which two transactions block each other.
 */
module PostgresRoutes {
  import opened Items
  import opened PostgresProtocol
  import opened PostgresRuns
  import opened PostgresRetention
  import opened PostgresWaits

  function ItemOf(n: nat): Item
    requires n < 256
  {
    Item([n, 0, 0, 0, 0, 0, 0, 0, 0, 0, 0, 0, 0, 0, 0, 0], "", "", Instant(0, 0))
  }

  /** A transaction that holds nothing. */
  predicate Idle(tx: Tx) {
    !tx.locked && tx.deletes == {} && !tx.rowLock && !tx.item
  }

  ghost predicate Quiet(s: State) {
    forall t :: t in s.txs ==> Idle(s.txs[t])
  }

  /** A transaction that has just been given its lock. */
  function HasLock(key: Digest, value: Item): Tx {
    Tx(key, 0, value, Locked, true, {}, 0, false, false, None)
  }

  lemma OpenAndLock(s: State, t: nat, key: Digest, value: Item, lock: Digest -> int) returns (end: State)
    requires Reachable(s, lock) && t !in s.txs
    requires forall u :: u in s.txs && s.txs[u].locked ==> lock(s.txs[u].key) != lock(key)
    ensures Reachable(end, lock) && end == s.(txs := s.txs[t := HasLock(key, value)])
  {
    var begun := Step(s, Start(t, key, 0, value), lock);
    StepIsReachable(s, Start(t, key, 0, value), lock);
    assert !LockTaken(begun, t, lock);
    StepIsReachable(begun, TryLock(t), lock);
    end := Step(begun, TryLock(t), lock);
    assert end.txs == s.txs[t := HasLock(key, value)];
  }

  /** Only transaction `t` changes, from one record to another. */
  lemma MoveAlone(s: State, e: Event, t: nat, tx: Tx, lock: Digest -> int) returns (end: State)
    requires Reachable(s, lock) && t in s.txs && Enabled(s, e)
    requires Step(s, e, lock) == s.(txs := s.txs[t := tx])
    ensures Reachable(end, lock) && end == s.(txs := s.txs[t := tx])
  {
    StepIsReachable(s, e, lock);
    end := Step(s, e, lock);
  }

  ghost predicate OthersQuiet(s: State, t: nat) {
    forall u :: u in s.txs && u != t ==> Idle(s.txs[u])
  }

  /** With nobody else about and nothing due, a new key goes through to its commit. */
  lemma CreateFrom(s: State, t: nat, key: Digest, value: Item, now: int, lock: Digest -> int) returns (end: State)
    requires Reachable(s, lock) && Quiet(s) && t !in s.txs && key !in s.rows && value.id !in s.items
    requires forall k :: k in s.rows ==> s.rows[k].expiresAt > now
    ensures Reachable(end, lock) && Quiet(end) && end.txs.Keys == s.txs.Keys + {t}
    ensures end.rows == s.rows[key := Row(0, value.id, now + RETENTION)] && end.items == s.items[value.id := value]
  {
    var locked := OpenAndLock(s, t, key, value, lock);
    var written := WriteBoth(locked, t, now, lock);
    StepIsReachable(written, Commit(t, None), lock);
    end := Step(written, Commit(t, None), lock);
    assert s.rows - {} == s.rows;
  }

  lemma WriteBoth(s: State, t: nat, now: int, lock: Digest -> int) returns (end: State)
    requires Reachable(s, lock) && t in s.txs && s.txs[t] == HasLock(s.txs[t].key, s.txs[t].value) && OthersQuiet(s, t)
    requires s.txs[t].key !in s.rows && s.txs[t].value.id !in s.items
    requires forall k :: k in s.rows ==> s.rows[k].expiresAt > now
    ensures Reachable(end, lock)
    ensures var row := Row(0, s.txs[t].value.id, now + RETENTION);
            end == s.(txs := s.txs[t := s.txs[t].(phase := RowIn, sweptAt := now, item := true, row := Some(row))])
  {
    var tx := s.txs[t];
    assert IsBatch(s, t, now, {});
    var swept := MoveAlone(s, Sweep(t, now, {}), t, tx.(phase := Swept, sweptAt := now), lock);
    var vacant := MoveAlone(swept, Lookup(t), t, tx.(phase := Vacant, sweptAt := now), lock);
    assert OthersQuiet(vacant, t);
    var itemIn := MoveAlone(vacant, InsertItem(t), t, tx.(phase := ItemIn, sweptAt := now, item := true), lock);
    var row := Row(0, tx.value.id, now + RETENTION);
    end := MoveAlone(itemIn, InsertRow(t, now), t,
                     tx.(phase := RowIn, sweptAt := now, item := true, row := Some(row)), lock);
  }

  // ----- More than a batch of expired rows -----

  /** The keys 0, ..., n - 1 have rows that expire at the same time, and nobody is about. */
  ghost predicate Filled(s: State, n: nat) {
    && Quiet(s)
    && (forall t :: t in s.txs ==> t < n)
    && (forall k: Digest :: k in s.rows <==> k < n)
    && (forall k :: k in s.rows ==> s.rows[k].requestHash == 0 && s.rows[k].expiresAt == RETENTION)
    && (forall id :: id in s.items ==> id[0] < n)
  }

  lemma {:induction false} Fill(n: nat, lock: Digest -> int) returns (s: State)
    requires n <= 256
    ensures Reachable(s, lock) && Filled(s, n)
  {
    if n == 0 {
      s := INIT;
      InitIsReachable(lock);
    } else {
      var before := Fill(n - 1, lock);
      assert n - 1 !in before.txs && ItemOf(n - 1).id !in before.items;
      s := CreateFrom(before, n - 1, n - 1, ItemOf(n - 1), 0, lock);
      FilledByOneMore(before, s, n - 1);
    }
  }

  lemma FilledByOneMore(before: State, s: State, n: nat)
    requires n < 256 && Filled(before, n) && Quiet(s) && s.txs.Keys == before.txs.Keys + {n}
    requires s.rows == before.rows[n := Row(0, ItemOf(n).id, RETENTION)]
    requires s.items == before.items[ItemOf(n).id := ItemOf(n)]
    ensures Filled(s, n + 1)
  {
    forall t | t in s.txs ensures t < n + 1 {
      assert t in before.txs.Keys + {n};
    }
    forall id | id in s.items ensures id[0] < n + 1 {
      assert id in before.items || id == ItemOf(n).id;
    }
  }

  function Range(n: nat): (ks: set<Digest>)
    ensures |ks| == n && forall k: Digest :: k in ks <==> k < n
  {
    if n == 0 then {}
    else
      var rest := Range(n - 1);
      assert n - 1 !in rest;
      rest + {n - 1}
  }

  /**
   * The first way, for every choice of lock numbers: one more row than a batch
   * has expired, the clean-up takes the others, and a retry is sent a replay.
   */
  lemma CrowdedRoute(lock: Digest -> int) returns (end: State, t: nat)
    ensures Reachable(end, lock) && StaleReplay(end, t)
  {
    var n := CLEANUP_BATCH + 1;
    var filled := Fill(n, lock);
    t := n;
    var s := OpenAndLock(filled, t, CLEANUP_BATCH, ItemOf(n), lock);
    assert Crowded(s, t, RETENTION, CLEANUP_BATCH) by { FilledIsCrowded(filled, s, t); }
    end := StaleReplayIsReachable(s, t, RETENTION, lock);
  }

  lemma FilledIsCrowded(filled: State, s: State, t: nat)
    requires Filled(filled, CLEANUP_BATCH + 1) && t !in filled.txs
    requires s.rows == filled.rows && forall u :: u in s.txs && u != t ==> u in filled.txs && s.txs[u] == filled.txs[u]
    ensures CLEANUP_BATCH in s.rows && Crowded(s, t, RETENTION, CLEANUP_BATCH)
  {
    assert forall k :: !RowLockedByOther(s, t, k);
    assert Before(s, t, RETENTION, CLEANUP_BATCH, Range(CLEANUP_BATCH));
  }

  // ----- One expired row, locked by another clean-up -----

  /**
   * The second way, with a single row: another key's clean-up is deleting the
   * expired row, the retry's clean-up skips it, the other transaction gives up,
   * and the retry is sent a replay.
   */
  lemma LockedRoute(lock: Digest -> int, key: Digest, other: Digest) returns (end: State, t: nat)
    requires lock(key) != lock(other)
    ensures Reachable(end, lock) && StaleReplay(end, t) && end.txs[t].key == key && |end.rows| == 1
  {
    var swept := SweptByAnother(lock, key, other);
    t := 2;
    var s := OpenAndLock(swept, t, key, ItemOf(2), lock);
    assert RowLockedByOther(s, t, key) by { assert key in s.txs[1].deletes; }
    end := StaleReplayIsReachable(s, t, RETENTION, lock);
    assert end.rows.Keys == {key};
  }

  /** A row, expired at its retention, that a transaction of another key is deleting. */
  lemma SweptByAnother(lock: Digest -> int, key: Digest, other: Digest) returns (s: State)
    requires lock(key) != lock(other)
    ensures Reachable(s, lock) && s.rows == map[key := Row(0, ItemOf(0).id, RETENTION)] && s.txs.Keys == {0, 1}
    ensures Idle(s.txs[0]) && s.txs[1].key == other && s.txs[1].deletes == {key}
  {
    InitIsReachable(lock);
    var one := CreateFrom(INIT, 0, key, ItemOf(0), 0, lock);
    assert one.txs.Keys == {0};
    s := SweepOnlyRow(one, 1, key, other, lock);
  }

  /** With nobody else about, a transaction of another key takes the one expired row into its clean-up. */
  lemma SweepOnlyRow(s: State, t: nat, key: Digest, other: Digest, lock: Digest -> int) returns (end: State)
    requires Reachable(s, lock) && Quiet(s) && t !in s.txs && s.rows.Keys == {key} && s.rows[key].expiresAt == RETENTION
    ensures Reachable(end, lock)
    ensures var tx := HasLock(other, ItemOf(1)).(phase := Swept, deletes := {key}, sweptAt := RETENTION);
            end == s.(txs := s.txs[t := tx])
  {
    var locked := OpenAndLock(s, t, other, ItemOf(1), lock);
    OnlyRowIsBatch(locked, t, key);
    var tx := HasLock(other, ItemOf(1)).(phase := Swept, deletes := {key}, sweptAt := RETENTION);
    end := MoveAlone(locked, Sweep(t, RETENTION, {key}), t, tx, lock);
  }

  lemma OnlyRowIsBatch(s: State, t: nat, key: Digest)
    requires OthersQuiet(s, t) && s.rows.Keys == {key} && s.rows[key].expiresAt == RETENTION
    ensures IsBatch(s, t, RETENTION, {key})
  {
    assert !RowLockedByOther(s, t, key);
  }

  // ----- Two retries that block each other -----

  /**
   * One more row than a batch has expired; a retry of the last key cleans up the
   * others, a retry of the first key cleans up what is left, and each one's
   * lookup now waits for the other.
   */
  lemma BlockingRoute(lock: Digest -> int) returns (s: State, t: nat, u: nat)
    requires lock(0) != lock(CLEANUP_BATCH)
    ensures Reachable(s, lock) && BlockEachOther(s, t, u, lock)
  {
    var n := CLEANUP_BATCH + 1;
    t, u := n, n + 1;
    var filled := Fill(n, lock);
    var others := Range(n - 1);
    var one := SweepOthers(filled, others, t, lock);
    s := SweepLeftover(filled, others, one, t, u, lock);
    assert Inv(s, lock) by { ReachableKeepsInv(s, lock); }
    BlockEachOtherIff(s, t, u, lock);
  }

  /** Then a retry of the first key, whose clean-up finds only the last row unlocked. */
  lemma SweepLeftover(filled: State, others: set<Digest>, s: State, t: nat, u: nat, lock: Digest -> int)
      returns (end: State)
    requires Reachable(s, lock) && Filled(filled, CLEANUP_BATCH + 1) && AllButLast(others)
    requires lock(0) != lock(CLEANUP_BATCH)
    requires t == CLEANUP_BATCH + 1 && u == CLEANUP_BATCH + 2
    requires s == filled.(txs := filled.txs[t := HasSwept(CLEANUP_BATCH, ItemOf(t), others)])
    ensures Reachable(end, lock) && end == s.(txs := s.txs[u := HasSwept(0, ItemOf(u), {CLEANUP_BATCH})])
  {
    var locked := OpenAndLock(s, u, 0, ItemOf(u), lock);
    assert IsBatch(locked, u, RETENTION, {CLEANUP_BATCH}) by { LeftoverIsBatch(filled, others, locked, t, u); }
    end := MoveAlone(locked, Sweep(u, RETENTION, {CLEANUP_BATCH}), u, HasSwept(0, ItemOf(u), {CLEANUP_BATCH}), lock);
  }

  /** A transaction that has cleaned up at the rows' expiry. */
  function HasSwept(key: Digest, value: Item, deletes: set<Digest>): Tx {
    HasLock(key, value).(phase := Swept, deletes := deletes, sweptAt := RETENTION)
  }

  /** All keys but the last. */
  ghost predicate AllButLast(ks: set<Digest>) {
    |ks| == CLEANUP_BATCH && forall k: Digest :: k in ks <==> k < CLEANUP_BATCH
  }

  /** A retry of the last key, with a clean-up that takes all the others. */
  lemma SweepOthers(filled: State, others: set<Digest>, t: nat, lock: Digest -> int) returns (s: State)
    requires Reachable(filled, lock) && Filled(filled, CLEANUP_BATCH + 1) && AllButLast(others)
    requires t == CLEANUP_BATCH + 1
    ensures Reachable(s, lock)
    ensures s == filled.(txs := filled.txs[t := HasSwept(CLEANUP_BATCH, ItemOf(t), others)])
  {
    assert t !in filled.txs;
    var locked := OpenAndLock(filled, t, CLEANUP_BATCH, ItemOf(t), lock);
    assert IsBatch(locked, t, RETENTION, others) by { OthersAreBatch(filled, others, locked, t); }
    s := MoveAlone(locked, Sweep(t, RETENTION, others), t, HasSwept(CLEANUP_BATCH, ItemOf(t), others), lock);
  }

  lemma OthersAreBatch(filled: State, others: set<Digest>, s: State, t: nat)
    requires Filled(filled, CLEANUP_BATCH + 1) && s.rows == filled.rows && AllButLast(others)
    requires forall u :: u in s.txs && u != t ==> u in filled.txs && s.txs[u] == filled.txs[u]
    ensures IsBatch(s, t, RETENTION, others)
  {
    assert forall k :: !RowLockedByOther(s, t, k);
  }

  lemma LeftoverIsBatch(filled: State, others: set<Digest>, s: State, t: nat, u: nat)
    requires Filled(filled, CLEANUP_BATCH + 1) && s.rows == filled.rows && AllButLast(others)
    requires t in s.txs && t != u && s.txs[t].deletes == others && !s.txs[t].rowLock
    requires forall v :: v in s.txs && v != t && v != u ==> v in filled.txs && s.txs[v] == filled.txs[v]
    ensures IsBatch(s, u, RETENTION, {CLEANUP_BATCH})
  {
    forall k | k in others ensures RowLockedByOther(s, u, k) {
      assert k in s.txs[t].deletes;
    }
    assert !RowLockedByOther(s, u, CLEANUP_BATCH) by { assert CLEANUP_BATCH !in others; }
    var last: set<Digest> := {CLEANUP_BATCH};
    assert |last| == 1;
  }
}
