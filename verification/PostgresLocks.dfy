/**
 * Lock numbers shared by several keys. Every run of the transactions, for every
 * choice of lock numbers, is mirrored by a run with a lock per key.
 */
module PostgresLocks {
  import opened Items
  import opened PostgresProtocol
  import opened PostgresRuns

  /** A lock per key: no two keys share a number. */
  const OWN: Digest -> int := k => k

  /** The answer of a refused try-lock. */
  const BUSY := Failure(IdempotencyInProgress)

  /** The lock is refused only because another key shares its number. */
  ghost predicate RefusedByNumber(s: State, e: Event, lock: Digest -> int) {
    e.TryLock? && e.t in s.txs && LockTaken(s, e.t, lock) && !LockTaken(s, e.t, OWN)
  }

  // ----- The mirrored system -----

  /** In the mirror a transaction refused by its number has not tried yet. */
  predicate TxAlike(tx: Tx, image: Tx) {
    tx == image || (image.phase.Begun? && tx == image.(phase := Leaving(BUSY)))
  }

  /** The same tables, and the same transactions but for refusals not yet reported. */
  ghost predicate Alike(s: State, m: State) {
    && s.items == m.items && s.rows == m.rows && s.plain == m.plain && s.origin == m.origin
    && s.txs.Keys == m.txs.Keys
    && forall t :: t in s.txs ==> TxAlike(s.txs[t], m.txs[t])
  }

  /** What the mirror does for an event: the same, nothing, or giving up with the same answer. */
  ghost predicate MoveFits(s: State, e: Event, lock: Digest -> int, move: Option<Event>) {
    || move == Some(e)
    || (RefusedByNumber(s, e, lock) && move == None)
    || (e.Rollback? && e.t in s.txs && s.txs[e.t].phase == Leaving(BUSY)
        && move == Some(Abort(e.t, IdempotencyInProgress)))
  }

  ghost predicate Moves(m: State, move: Option<Event>, next: State) {
    match move
    case None => next == m
    case Some(e) => Enabled(m, e) && next == Step(m, e, OWN)
  }

  /** The move of the mirror for one event. */
  ghost function MoveFor(s: State, m: State, e: Event, lock: Digest -> int): Option<Event> {
    if RefusedByNumber(s, e, lock) then None
    else if e.Rollback? && e.t in s.txs && e.t in m.txs && s.txs[e.t] != m.txs[e.t] then
      Some(Abort(e.t, IdempotencyInProgress))
    else Some(e)
  }

  // ----- One step -----

  /** What transactions hold against each other is the same on both sides. */
  lemma AlikeHold(s: State, m: State, t: nat)
    requires Alike(s, m)
    ensures forall k :: RowLockedByOther(s, t, k) <==> RowLockedByOther(m, t, k)
    ensures forall id :: ItemInsertedByOther(s, t, id) <==> ItemInsertedByOther(m, t, id)
  {
    assert forall u :: u in s.txs ==>
        && s.txs[u].deletes == m.txs[u].deletes && s.txs[u].rowLock == m.txs[u].rowLock
        && s.txs[u].key == m.txs[u].key && s.txs[u].item == m.txs[u].item && s.txs[u].value == m.txs[u].value;
  }

  lemma AlikeLocks(s: State, m: State, t: nat, lock: Digest -> int)
    requires Alike(s, m) && t in s.txs
    ensures LockTaken(s, t, lock) <==> LockTaken(m, t, lock)
  {
    assert forall u :: u in s.txs ==> s.txs[u].locked == m.txs[u].locked && s.txs[u].key == m.txs[u].key;
  }

  /** A lock per key refuses only what any numbering refuses. */
  lemma OwnLockIsWeakest(s: State, t: nat, lock: Digest -> int)
    requires t in s.txs && LockTaken(s, t, OWN)
    ensures LockTaken(s, t, lock)
  {
    var u :| u in s.txs && u != t && s.txs[u].locked && OWN(s.txs[u].key) == OWN(s.txs[t].key);
    assert lock(s.txs[u].key) == lock(s.txs[t].key);
  }

  lemma AlikeBatch(s: State, m: State, t: nat, now: int, chosen: set<Digest>)
    requires Alike(s, m) && IsBatch(s, t, now, chosen)
    ensures IsBatch(m, t, now, chosen)
  {
    AlikeHold(s, m, t);
    assert forall k :: Eligible(s, t, now, k) <==> Eligible(m, t, now, k);
  }

  /** A step that changes one transaction and no table keeps the two sides alike. */
  lemma AlikeAfterTx(s: State, m: State, t: nat, tx: Tx, image: Tx)
    requires Alike(s, m) && TxAlike(tx, image)
    ensures Alike(s.(txs := s.txs[t := tx]), m.(txs := m.txs[t := image]))
  {
  }

  lemma SameOpening(s: State, m: State, e: Event, lock: Digest -> int)
    requires Alike(s, m) && Enabled(s, e) && (e.PlainInsert? || e.Start?)
    ensures Enabled(m, e) && Alike(Step(s, e, lock), Step(m, e, OWN))
  {
    assert forall u :: u in s.txs ==> s.txs[u].item == m.txs[u].item && s.txs[u].value == m.txs[u].value;
  }

  /** A step of a transaction that stands alike on both sides is the same step. */
  lemma SameStep(s: State, m: State, e: Event, lock: Digest -> int)
    requires Alike(s, m) && Enabled(s, e) && !e.TryLock? && !e.PlainInsert? && !e.Start?
    requires s.txs[e.t] == m.txs[e.t]
    ensures Enabled(m, e) && Alike(Step(s, e, lock), Step(m, e, OWN))
  {
    if e.Sweep? {
      assert Enabled(m, e) by { AlikeBatch(s, m, e.t, e.now, e.chosen); }
    } else {
      assert Enabled(m, e) by { AlikeHold(s, m, e.t); }
    }
    var tx := Step(s, e, lock).txs[e.t];
    assert tx == Step(m, e, OWN).txs[e.t];
    AlikeAfterTx(s, m, e.t, tx, tx);
  }

  /** A try-lock that both numberings answer alike is the same step. */
  lemma SameTryLock(s: State, m: State, t: nat, lock: Digest -> int)
    requires Alike(s, m) && Enabled(s, TryLock(t)) && !RefusedByNumber(s, TryLock(t), lock)
    ensures Enabled(m, TryLock(t)) && Alike(Step(s, TryLock(t), lock), Step(m, TryLock(t), OWN))
  {
    AlikeLocks(s, m, t, OWN);
    if LockTaken(s, t, OWN) { OwnLockIsWeakest(s, t, lock); }
  }

  /** A refused transaction's end is the mirror's giving up, with the same answer. */
  lemma SameEnd(s: State, m: State, e: Event, lock: Digest -> int)
    requires Alike(s, m) && Enabled(s, e) && (e.Rollback? || e.Abort?) && s.txs[e.t] != m.txs[e.t]
    ensures var move := if e.Rollback? then Abort(e.t, IdempotencyInProgress) else e;
            Enabled(m, move) && Alike(Step(s, e, lock), Step(m, move, OWN))
  {
  }

  lemma MirrorStep(s: State, m: State, e: Event, lock: Digest -> int) returns (next: State)
    requires Alike(s, m) && Enabled(s, e)
    ensures Moves(m, MoveFor(s, m, e, lock), next) && MoveFits(s, e, lock, MoveFor(s, m, e, lock))
    ensures Alike(Step(s, e, lock), next)
  {
    if RefusedByNumber(s, e, lock) {
      next := m;
    } else if e.TryLock? {
      SameTryLock(s, m, e.t, lock);
      next := Step(m, e, OWN);
    } else if e.PlainInsert? || e.Start? {
      SameOpening(s, m, e, lock);
      next := Step(m, e, OWN);
    } else if s.txs[e.t] == m.txs[e.t] {
      SameStep(s, m, e, lock);
      next := Step(m, e, OWN);
    } else {
      SameEnd(s, m, e, lock);
      next := Step(m, if e.Rollback? then Abort(e.t, IdempotencyInProgress) else e, OWN);
    }
  }

  // ----- Whole runs -----

  /** A run with a lock per key that, moment by moment, has the same tables and the same answers. */
  ghost predicate IsMirror(
      states: seq<State>, events: seq<Event>, lock: Digest -> int, mirror: seq<State>, moves: seq<Option<Event>>)
  {
    && |mirror| == |states| == |events| + 1 == |moves| + 1
    && mirror[0] == INIT
    && (forall i :: 0 <= i < |states| ==> Alike(states[i], mirror[i]))
    && (forall i :: 0 <= i < |events| ==> Moves(mirror[i], moves[i], mirror[i + 1]))
    && (forall i :: 0 <= i < |events| ==> MoveFits(states[i], events[i], lock, moves[i]))
  }

  lemma {:induction false} RunIsMirrored(states: seq<State>, events: seq<Event>, lock: Digest -> int)
    requires IsRun(states, events, lock)
    ensures exists mirror, moves :: IsMirror(states, events, lock, mirror, moves)
    decreases |events|
  {
    var n := |events| - 1;
    if n < 0 {
      assert IsMirror(states, events, lock, [INIT], []);
    } else {
      assert IsStep(states, events, lock, n);
      RunPrefix(states, events, lock, n);
      RunIsMirrored(states[..n + 1], events[..n], lock);
      var mirror, moves :| IsMirror(states[..n + 1], events[..n], lock, mirror, moves);
      assert Alike(states[..n + 1][n], mirror[n]);
      var next := MirrorStep(states[n], mirror[n], events[n], lock);
      MirrorExtends(states, events, lock, mirror, moves, next);
    }
  }

  lemma RunPrefix(states: seq<State>, events: seq<Event>, lock: Digest -> int, n: nat)
    requires IsRun(states, events, lock) && n <= |events|
    ensures IsRun(states[..n + 1], events[..n], lock)
  {
    var states', events' := states[..n + 1], events[..n];
    forall i | 0 <= i < n ensures IsStep(states', events', lock, i) {
      assert IsStep(states, events, lock, i);
    }
  }

  lemma MirrorExtends(states: seq<State>, events: seq<Event>, lock: Digest -> int,
                      mirror: seq<State>, moves: seq<Option<Event>>, next: State)
    requires |states| == |events| + 1 && |events| > 0
    requires var n := |events| - 1;
             && IsMirror(states[..n + 1], events[..n], lock, mirror, moves)
             && Moves(mirror[n], MoveFor(states[n], mirror[n], events[n], lock), next)
             && MoveFits(states[n], events[n], lock, MoveFor(states[n], mirror[n], events[n], lock))
             && Alike(states[n + 1], next)
    ensures var n := |events| - 1;
            IsMirror(states, events, lock, mirror + [next], moves + [MoveFor(states[n], mirror[n], events[n], lock)])
  {
    var n := |events| - 1;
    var states', events' := states[..n + 1], events[..n];
    var mirror', moves' := mirror + [next], moves + [MoveFor(states[n], mirror[n], events[n], lock)];
    forall i | 0 <= i < |states| ensures Alike(states[i], mirror'[i]) {
      if i <= n { assert Alike(states'[i], mirror[i]); }
    }
    forall i | 0 <= i < |events| ensures Moves(mirror'[i], moves'[i], mirror'[i + 1]) {
      if i < n { assert Moves(mirror[i], moves[i], mirror[i + 1]); }
    }
    forall i | 0 <= i < |events| ensures MoveFits(states[i], events[i], lock, moves'[i]) {
      if i < n { assert MoveFits(states'[i], events'[i], lock, moves[i]); }
    }
  }

  /** Leaving out the moments in which the mirror does nothing gives a run. */
  lemma {:induction false} MirrorIsReachable(mirror: seq<State>, moves: seq<Option<Event>>, n: nat)
    requires |mirror| == |moves| + 1 && mirror[0] == INIT && n <= |moves|
    requires forall i :: 0 <= i < |moves| ==> Moves(mirror[i], moves[i], mirror[i + 1])
    ensures Reachable(mirror[n], OWN)
  {
    if n == 0 {
      InitIsReachable(OWN);
    } else {
      MirrorIsReachable(mirror, moves, n - 1);
      assert Moves(mirror[n - 1], moves[n - 1], mirror[n]);
      if moves[n - 1].Some? { StepIsReachable(mirror[n - 1], moves[n - 1].value, OWN); }
    }
  }

  /**
   * Shared lock numbers can only add in-progress answers: whatever a run under
   * them reaches, a run with a lock per key reaches with the same tables and the
   * same answers. The mirror makes the same moves, but for try-locks refused by
   * the number alone, which it leaves out, and their ends, where it gives up.
   */
  lemma SharedLockIdsOnlyRefuse(states: seq<State>, events: seq<Event>, lock: Digest -> int)
    requires IsRun(states, events, lock)
    ensures exists mirror, moves ::
              IsMirror(states, events, lock, mirror, moves) && AllReachable(mirror, OWN) && SameAnswers(states, mirror)
  {
    RunIsMirrored(states, events, lock);
    var mirror, moves :| IsMirror(states, events, lock, mirror, moves);
    forall n | 0 <= n < |mirror| ensures Reachable(mirror[n], OWN) {
      MirrorIsReachable(mirror, moves, n);
    }
    forall n | 0 <= n < |mirror| ensures AnswersAgree(states[n], mirror[n]) {
      assert Alike(states[n], mirror[n]);
    }
  }

  ghost predicate AllReachable(states: seq<State>, lock: Digest -> int) {
    forall n :: 0 <= n < |states| ==> Reachable(states[n], lock)
  }

  /** At every moment every transaction that has ended was given the same answer in the mirror. */
  ghost predicate SameAnswers(states: seq<State>, mirror: seq<State>) {
    |states| == |mirror| && forall n :: 0 <= n < |states| ==> AnswersAgree(states[n], mirror[n])
  }

  ghost predicate AnswersAgree(s: State, m: State) {
    forall t :: t in s.txs && s.txs[t].phase.Ended? ==> t in m.txs && m.txs[t].phase == s.txs[t].phase
  }
}
