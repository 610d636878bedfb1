/** What every keyed create of the PostgreSQL adapter is told, and how far it can go by itself. */
module PostgresAnswers {
  import opened Items
  import opened AtomicMap
  import opened PostgresProtocol
  import opened PostgresRuns
  import opened PostgresRetention
  import opened PostgresWaits

  predicate IsOwn(e: Event, t: nat) {
    !e.PlainInsert? && e.t == t
  }

  /** The statement leaves its transaction with an error to report once it is rolled back. */
  ghost predicate Rejects(s: State, e: Event, lock: Digest -> int, r: Response)
    requires Enabled(s, e)
  {
    match e
    case TryLock(t) => LockTaken(s, t, lock) && r == Failure(IdempotencyInProgress)
    case Lookup(t) =>
      var tx := s.txs[t];
      && tx.key in s.rows && tx.key !in tx.deletes && s.rows[tx.key].requestHash != tx.fingerprint
      && r == Failure(IdempotencyConflict)
    case InsertItem(t) => s.txs[t].value.id in s.items && r == Failure(Conflict)
    case _ => false
  }

  /** The event ends its transaction with the answer `r`. */
  ghost predicate Tells(s: State, e: Event, r: Response)
    requires Enabled(s, e)
  {
    match e
    case Commit(t, Some(error)) => r == Failure(error)
    case Commit(t, None) =>
      var tx := s.txs[t];
      if tx.row.Some? then r == Success(tx.value, false)
      else
        && tx.key in s.rows && s.rows[tx.key].itemId in s.items
        && r == Success(s.items[s.rows[tx.key].itemId], true)
    case Rollback(t) => r == s.txs[t].phase.response
    case Abort(_, error) => r == Failure(error)
    case _ => false
  }

  /** A statement leaves an open transaction with an error exactly when it is its own and rejects it so. */
  lemma StepRejects(s: State, e: Event, lock: Digest -> int, t: nat, r: Response)
    requires Enabled(s, e) && t in s.txs && Fits(s, s.txs[t]) && OriginsFit(s) && !s.txs[t].phase.Leaving?
    ensures t in Step(s, e, lock).txs
    ensures Step(s, e, lock).txs[t].phase == Leaving(r) <==> IsOwn(e, t) && Rejects(s, e, lock, r)
  {
    if !IsOwn(e, t) {
      OthersStay(s, e, lock, t);
    }
  }

  lemma OthersStay(s: State, e: Event, lock: Digest -> int, t: nat)
    requires Enabled(s, e) && t in s.txs && !IsOwn(e, t)
    ensures t in Step(s, e, lock).txs && Step(s, e, lock).txs[t] == s.txs[t]
  {
  }

  /** An event ends an open transaction with an answer exactly when it is its own and tells that answer. */
  lemma StepAnswer(s: State, e: Event, lock: Digest -> int, t: nat, r: Response)
    requires Enabled(s, e) && t in s.txs && Shape(s.txs[t]) && Fits(s, s.txs[t]) && !s.txs[t].phase.Ended?
    ensures t in Step(s, e, lock).txs
    ensures Step(s, e, lock).txs[t].phase == Ended(r) <==> IsOwn(e, t) && Tells(s, e, r)
  {
    if !IsOwn(e, t) {
      OthersStay(s, e, lock, t);
    } else if e.Commit? {
      CommitAnswer(s, t, e.lost, r);
    }
  }

  lemma CommitAnswer(s: State, t: nat, lost: Option<Error>, r: Response)
    requires Enabled(s, Commit(t, lost)) && Shape(s.txs[t]) && Fits(s, s.txs[t])
    ensures AfterCommit(s, t, lost).txs[t].phase == Ended(r) <==> Tells(s, Commit(t, lost), r)
  {
  }

  // ----- Answers along runs -----

  /** Event `m` of the run rejects transaction `t` with `r`. */
  ghost predicate RejectedAt(
      states: seq<State>, events: seq<Event>, lock: Digest -> int, m: nat, t: nat, r: Response)
  {
    && m < |events| < |states| && Enabled(states[m], events[m]) && IsOwn(events[m], t)
    && t in states[m].txs && Rejects(states[m], events[m], lock, r)
  }

  /** Event `m` of the run ends transaction `t` with `r`. */
  ghost predicate ToldAt(states: seq<State>, events: seq<Event>, m: nat, t: nat, r: Response) {
    && m < |events| < |states| && Enabled(states[m], events[m]) && IsOwn(events[m], t)
    && t in states[m].txs && !states[m].txs[t].phase.Ended? && Tells(states[m], events[m], r)
  }

  /** Transaction `t` is past its decisions and has only to commit or roll back. */
  predicate Settled(tx: Tx) {
    tx.phase.Hit? || tx.phase.Leaving? || tx.phase.Ended?
  }

  lemma SettledStays(s: State, e: Event, lock: Digest -> int, t: nat)
    requires Enabled(s, e) && t in s.txs
    ensures t in Step(s, e, lock).txs
    ensures s.txs[t].phase.Ended? ==> Step(s, e, lock).txs[t].phase == s.txs[t].phase
    ensures Settled(s.txs[t]) ==>
              Step(s, e, lock).txs[t].phase == s.txs[t].phase || Step(s, e, lock).txs[t].phase.Ended?
  {
  }

  /** A settled transaction stays as it is until it ends, and an ended one for good. */
  lemma {:induction false} RunStaysSettled(
      states: seq<State>, events: seq<Event>, lock: Digest -> int, m: nat, n: nat, t: nat)
    requires IsRun(states, events, lock) && m <= n < |states| && t in states[m].txs && Settled(states[m].txs[t])
    ensures t in states[n].txs
    ensures states[n].txs[t].phase == states[m].txs[t].phase
            || (!states[m].txs[t].phase.Ended? && states[n].txs[t].phase.Ended?)
    decreases n
  {
    if m == n {
    } else {
      RunStaysSettled(states, events, lock, m, n - 1, t);
      assert IsStep(states, events, lock, n - 1);
      SettledStays(states[n - 1], events[n - 1], lock, t);
    }
  }

  lemma RunAnswer(states: seq<State>, events: seq<Event>, lock: Digest -> int, n: nat, t: nat, r: Response)
    requires IsRun(states, events, lock) && n < |events| && t in states[n].txs && !states[n].txs[t].phase.Ended?
    ensures Enabled(states[n], events[n]) && t in states[n + 1].txs
    ensures states[n + 1].txs[t].phase == Ended(r) <==> IsOwn(events[n], t) && Tells(states[n], events[n], r)
  {
    assert IsStep(states, events, lock, n);
    assert Shape(states[n].txs[t]) && Fits(states[n], states[n].txs[t]) by { RunKeepsInv(states, events, lock, n); }
    StepAnswer(states[n], events[n], lock, t, r);
  }

  lemma RunRejects(states: seq<State>, events: seq<Event>, lock: Digest -> int, n: nat, t: nat, r: Response)
    requires IsRun(states, events, lock) && n < |events| && t in states[n].txs && !states[n].txs[t].phase.Leaving?
    ensures Enabled(states[n], events[n]) && t in states[n + 1].txs
    ensures states[n + 1].txs[t].phase == Leaving(r) <==>
            IsOwn(events[n], t) && Rejects(states[n], events[n], lock, r)
  {
    assert IsStep(states, events, lock, n);
    assert OriginsFit(states[n]) && Fits(states[n], states[n].txs[t]) by { RunKeepsInv(states, events, lock, n); }
    StepRejects(states[n], events[n], lock, t, r);
  }

  lemma NewTxIsBegun(s: State, e: Event, lock: Digest -> int, t: nat)
    requires Enabled(s, e) && t !in s.txs && t in Step(s, e, lock).txs
    ensures Step(s, e, lock).txs[t].phase.Begun?
  {
  }

  lemma {:induction false} AnswerWasTold(
      states: seq<State>, events: seq<Event>, lock: Digest -> int, n: nat, t: nat, r: Response)
    requires IsRun(states, events, lock) && n < |states| && t in states[n].txs && states[n].txs[t].phase == Ended(r)
    ensures exists m: nat :: m < n && ToldAt(states, events, m, t, r)
  {
    if n == 0 {
    } else {
      assert IsStep(states, events, lock, n - 1);
      if t !in states[n - 1].txs {
        NewTxIsBegun(states[n - 1], events[n - 1], lock, t);
      } else if states[n - 1].txs[t].phase.Ended? {
        SettledStays(states[n - 1], events[n - 1], lock, t);
        AnswerWasTold(states, events, lock, n - 1, t, r);
      } else {
        RunAnswer(states, events, lock, n - 1, t, r);
        assert ToldAt(states, events, n - 1, t, r);
      }
    }
  }

  /** Along every run: a transaction has ended with an answer exactly when some event before told it that answer. */
  lemma AnswersAreTold(states: seq<State>, events: seq<Event>, lock: Digest -> int, n: nat, t: nat, r: Response)
    requires IsRun(states, events, lock) && n < |states|
    ensures t in states[n].txs && states[n].txs[t].phase == Ended(r) <==>
            exists m: nat :: m < n && ToldAt(states, events, m, t, r)
  {
    if t in states[n].txs && states[n].txs[t].phase == Ended(r) {
      AnswerWasTold(states, events, lock, n, t, r);
    }
    forall m: nat | m < n && ToldAt(states, events, m, t, r)
      ensures t in states[n].txs && states[n].txs[t].phase == Ended(r)
    {
      RunAnswer(states, events, lock, m, t, r);
      RunStaysSettled(states, events, lock, m + 1, n, t);
    }
  }

  lemma {:induction false} LeavingWasRejected(
      states: seq<State>, events: seq<Event>, lock: Digest -> int, n: nat, t: nat, r: Response)
    requires IsRun(states, events, lock) && n < |states| && t in states[n].txs && states[n].txs[t].phase == Leaving(r)
    ensures exists m: nat :: m < n && RejectedAt(states, events, lock, m, t, r)
  {
    if n == 0 {
    } else {
      assert IsStep(states, events, lock, n - 1);
      if t !in states[n - 1].txs {
        NewTxIsBegun(states[n - 1], events[n - 1], lock, t);
      } else if states[n - 1].txs[t].phase.Leaving? {
        SettledStays(states[n - 1], events[n - 1], lock, t);
        LeavingWasRejected(states, events, lock, n - 1, t, r);
      } else {
        RunRejects(states, events, lock, n - 1, t, r);
        assert RejectedAt(states, events, lock, n - 1, t, r);
      }
    }
  }

  /** A rollback answers with the error of the statement that failed: lock taken, other fingerprint, or ID in use. */
  lemma RollbackTellsTheRejection(states: seq<State>, events: seq<Event>, lock: Digest -> int, n: nat, t: nat)
    requires IsRun(states, events, lock) && n < |events| && events[n] == Rollback(t)
    ensures t in states[n + 1].txs
    ensures exists m: nat, r ::
              m < n && RejectedAt(states, events, lock, m, t, r) && states[n + 1].txs[t].phase == Ended(r)
  {
    assert IsStep(states, events, lock, n);
    LeavingWasRejected(states, events, lock, n, t, states[n].txs[t].phase.response);
  }

  // ----- Observations reach their clients -----

  /** The observation is about the transaction's own key and fingerprint. */
  ghost predicate IsAbout(o: Observation, tx: Tx) {
    match o
    case Made(k, entry) => k == tx.key && entry == Entry(tx.fingerprint, tx.value)
    case Replayed(k, entry) => k == tx.key && entry.fingerprint == tx.fingerprint
    case Conflicted(k, fingerprint) => k == tx.key && fingerprint == tx.fingerprint
    case _ => false
  }

  /** An acknowledged commit tells its client of the observed item: new if it was made, a replay if it was there. */
  lemma CommitTellsTheItem(
      states: seq<State>, events: seq<Event>, lock: Digest -> int,
      dropped: seq<set<Digest>>, observed: seq<Observation>, m: nat, t: nat)
    requires IsRun(states, events, lock) && Traces(states, events, lock, dropped, observed) && m < |events|
    requires events[m] == Commit(t, None)
    ensures t in states[m].txs && t in states[m + 1].txs && IsAbout(observed[m], states[m].txs[t])
    ensures match observed[m]
            case Made(_, entry) => states[m + 1].txs[t].phase == Ended(Success(entry.item, false))
            case Replayed(_, entry) => states[m + 1].txs[t].phase == Ended(Success(entry.item, true))
            case _ => false
  {
    assert IsStep(states, events, lock, m) && TracedAt(states, events, lock, dropped, observed, m);
  }

  /** A commit whose acknowledgement is lost tells only of the loss; what it made or replayed is in the tables. */
  lemma LostCommitTellsTheLoss(
      states: seq<State>, events: seq<Event>, lock: Digest -> int,
      dropped: seq<set<Digest>>, observed: seq<Observation>, m: nat, t: nat, error: Error)
    requires IsRun(states, events, lock) && Traces(states, events, lock, dropped, observed) && m < |events|
    requires events[m] == Commit(t, Some(error))
    ensures t in states[m].txs && t in states[m + 1].txs && IsAbout(observed[m], states[m].txs[t])
    ensures states[m + 1].txs[t].phase == Ended(Failure(error))
    ensures match observed[m]
            case Made(k, entry) => k in Live(states[m + 1]) && Live(states[m + 1])[k] == entry
            case Replayed(k, entry) => k in Live(states[m + 1]) && Live(states[m + 1])[k] == entry
            case _ => false
  {
    assert IsStep(states, events, lock, m) && TracedAt(states, events, lock, dropped, observed, m);
    RunStepIsAtomic(states, events, lock, dropped, observed, m);
  }

  /** An observed conflict is what its transaction's client is told when it is rolled back. */
  lemma ConflictIsTold(
      states: seq<State>, events: seq<Event>, lock: Digest -> int,
      dropped: seq<set<Digest>>, observed: seq<Observation>, m: nat, n: nat, t: nat)
    requires IsRun(states, events, lock) && Traces(states, events, lock, dropped, observed) && m < n < |events|
    requires observed[m].Conflicted? && IsOwn(events[m], t) && events[n] == Rollback(t)
    ensures t in states[m].txs && IsAbout(observed[m], states[m].txs[t])
    ensures t in states[n + 1].txs && states[n + 1].txs[t].phase == Ended(Failure(IdempotencyConflict))
  {
    assert IsStep(states, events, lock, m) && TracedAt(states, events, lock, dropped, observed, m);
    RunStaysSettled(states, events, lock, m + 1, n, t);
    assert IsStep(states, events, lock, n);
  }

  /**
   * A retry from its lookup to its client: while every clean-up since, its own
   * included, read a clock within 24 hours of the row's insert, the
   * transaction's acknowledged commit or rollback answers with the committed
   * item as a replay, or with a conflict, depending on the fingerprint alone.
   */
  lemma RetryIsAnswered(
      states: seq<State>, events: seq<Event>, lock: Digest -> int, h: nat, i: nat, j: nat, l: nat,
      c: nat, now: int, lost: Option<Error>, d: nat)
    requires IsRun(states, events, lock) && h < i < j < l < |events|
    requires events[h] == InsertRow(c, now) && events[i] == Commit(c, lost) && c in states[i].txs
    requires SweepsBelow(states, events, i, j, now + RETENTION)
    requires events[j] == Lookup(d) && d in states[j].txs
    requires states[j].txs[d].key == states[i].txs[c].key && states[j].txs[d].sweptAt < now + RETENTION
    requires events[l] == Commit(d, None) || events[l] == Rollback(d)
    ensures d in states[l + 1].txs
    ensures states[l + 1].txs[d].phase == Ended(
              if states[j].txs[d].fingerprint == states[i].txs[c].fingerprint
              then Success(states[i].txs[c].value, true)
              else Failure(IdempotencyConflict))
  {
    assert d in states[j + 1].txs by { assert IsStep(states, events, lock, j); }
    RetryReplaysOrConflicts(states, events, lock, h, i, j, c, now, lost, d);
    RunStaysSettled(states, events, lock, j + 1, l, d);
    assert IsStep(states, events, lock, l);
  }

  // ----- How far a transaction goes by itself -----

  /** Some clean-up is always possible. */
  lemma BatchExists(s: State, t: nat, now: int) returns (chosen: set<Digest>)
    ensures IsBatch(s, t, now, chosen)
  {
    chosen := EarliestExist(s.rows, Due(s, t, now), CLEANUP_BATCH);
    EarliestIsBatch(s, t, now, chosen);
  }

  /** An open transaction waits for another one, or can take its next step without giving up. */
  lemma OpenCanGoOn(s: State, t: nat, lock: Digest -> int) returns (e: Event)
    requires Inv(s, lock) && t in s.txs && !s.txs[t].phase.Ended? && !Stalled(s, t)
    ensures Enabled(s, e) && IsOwn(e, t) && !e.Abort?
  {
    var chosen := BatchExists(s, t, 0);
    match s.txs[t].phase
    case Begun => e := TryLock(t);
    case Locked => e := Sweep(t, 0, chosen);
    case Swept => e := Lookup(t);
    case Vacant => e := InsertItem(t);
    case ItemIn => e := InsertRow(t, 0);
    case RowIn => e := Commit(t, None);
    case Hit(_) => e := Commit(t, None);
    case Leaving(_) => e := Rollback(t);
  }

  function OwnSteps(events: seq<Event>, t: nat, n: nat): nat
    requires n <= |events|
  {
    if n == 0 then 0 else OwnSteps(events, t, n - 1) + if IsOwn(events[n - 1], t) then 1 else 0
  }

  /** How many statements, the opening one included, bring a transaction to its phase. */
  ghost predicate StepsFit(s: State, t: nat, steps: nat) {
    if t !in s.txs then steps == 0
    else
      match s.txs[t].phase
      case Begun => steps == 1
      case Locked => steps == 2
      case Swept => steps == 3
      case Vacant => steps == 4
      case Hit(_) => steps == 4
      case ItemIn => steps == 5
      case RowIn => steps == 6
      case Leaving(_) => steps <= 6
      case Ended(_) => steps <= 7
  }

  lemma {:induction false} RunStepsFit(states: seq<State>, events: seq<Event>, lock: Digest -> int, n: nat, t: nat)
    requires IsRun(states, events, lock) && n < |states|
    ensures StepsFit(states[n], t, OwnSteps(events, t, n))
  {
    if n == 0 {
    } else {
      RunStepsFit(states, events, lock, n - 1, t);
      assert IsStep(states, events, lock, n - 1);
      StepStepsFit(states[n - 1], events[n - 1], lock, t, OwnSteps(events, t, n - 1));
    }
  }

  lemma StepStepsFit(s: State, e: Event, lock: Digest -> int, t: nat, steps: nat)
    requires Enabled(s, e) && StepsFit(s, t, steps)
    ensures StepsFit(Step(s, e, lock), t, if IsOwn(e, t) then steps + 1 else steps)
  {
  }

  /**
   * In every state of every run a transaction has ended, after at most seven
   * statements of its own, or waits for another one that holds what it needs,
   * or can take its next statement.
   */
  lemma TransactionsGoOn(states: seq<State>, events: seq<Event>, lock: Digest -> int, n: nat, t: nat)
    requires IsRun(states, events, lock) && n < |states| && t in states[n].txs
    ensures OwnSteps(events, t, n) <= 7
    ensures !states[n].txs[t].phase.Ended? ==>
              && OwnSteps(events, t, n) < 7
              && ((exists u :: HoldsFor(states[n], t, u))
                  || exists e :: Enabled(states[n], e) && IsOwn(e, t) && !e.Abort?)
  {
    RunStepsFit(states, events, lock, n, t);
    RunKeepsInv(states, events, lock, n);
    if !states[n].txs[t].phase.Ended? {
      if Stalled(states[n], t) {
        var u := StalledHasHolder(states[n], t, lock);
      } else {
        var e := OpenCanGoOn(states[n], t, lock);
      }
    }
  }
}
