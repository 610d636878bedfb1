/** What holds along every run of the PostgreSQL adapter, for every choice of lock numbers. */
module PostgresRuns {
  import opened Items
  import opened AtomicMap
  import opened PostgresProtocol

  ghost predicate IsRun(states: seq<State>, events: seq<Event>, lock: Digest -> int) {
    && |states| == |events| + 1
    && states[0] == INIT
    && forall i :: 0 <= i < |events| ==> IsStep(states, events, lock, i)
  }

  ghost predicate IsStep(states: seq<State>, events: seq<Event>, lock: Digest -> int, i: nat)
    requires i < |events| < |states|
  {
    Enabled(states[i], events[i]) && states[i + 1] == Step(states[i], events[i], lock)
  }

  /** Every state of every run satisfies the protocol invariant. */
  lemma {:induction false} RunKeepsInv(states: seq<State>, events: seq<Event>, lock: Digest -> int, n: nat)
    requires IsRun(states, events, lock) && n < |states|
    ensures Inv(states[n], lock)
  {
    if n == 0 {
    } else {
      RunKeepsInv(states, events, lock, n - 1);
      assert IsStep(states, events, lock, n - 1);
      StepKeepsInv(states[n - 1], events[n - 1], lock);
    }
  }

  ghost predicate Reaches(states: seq<State>, events: seq<Event>, lock: Digest -> int, s: State) {
    IsRun(states, events, lock) && states[|events|] == s
  }

  /** Some run ends in the state. */
  ghost predicate Reachable(s: State, lock: Digest -> int) {
    exists states, events :: Reaches(states, events, lock, s)
  }

  lemma InitIsReachable(lock: Digest -> int)
    ensures Reachable(INIT, lock)
  {
    assert Reaches([INIT], [], lock, INIT);
  }

  lemma StepIsReachable(s: State, e: Event, lock: Digest -> int)
    requires Reachable(s, lock) && Enabled(s, e)
    ensures Reachable(Step(s, e, lock), lock)
  {
    var states, events :| Reaches(states, events, lock, s);
    var longer, more := states + [Step(s, e, lock)], events + [e];
    forall i | 0 <= i < |more| ensures IsStep(longer, more, lock, i) {
      assert i < |events| ==> IsStep(states, events, lock, i);
    }
    assert Reaches(longer, more, lock, Step(s, e, lock));
  }

  lemma ReachableKeepsInv(s: State, lock: Digest -> int)
    requires Reachable(s, lock)
    ensures Inv(s, lock)
  {
    var states, events :| Reaches(states, events, lock, s);
    RunKeepsInv(states, events, lock, |events|);
  }

  // ----- Item and replay row become visible together -----

  /** A new committed row brings a new committed item. */
  lemma NewRowBringsItsItem(s: State, e: Event, lock: Digest -> int, k: Digest)
    requires Inv(s, lock) && Enabled(s, e)
    requires k in Step(s, e, lock).rows && (k !in s.rows || Step(s, e, lock).rows[k] != s.rows[k])
    ensures Step(s, e, lock).rows[k].itemId in Step(s, e, lock).items
    ensures Step(s, e, lock).rows[k].itemId !in s.items
  {
    assert Shape(s.txs[e.t]) && Fits(s, s.txs[e.t]);
  }

  /** A new committed item is a plain one or brings its own row. */
  lemma NewItemBringsItsRow(s: State, e: Event, lock: Digest -> int, id: Uuid)
    requires Inv(s, lock) && Enabled(s, e)
    requires id in Step(s, e, lock).items && id !in s.items
    ensures e.PlainInsert? || exists k :: k in Step(s, e, lock).rows && Step(s, e, lock).rows[k].itemId == id
  {
    if !e.PlainInsert? {
      var tx := s.txs[e.t];
      assert Shape(tx);
      assert tx.key in Step(s, e, lock).rows;
    }
  }

  /** Committed items never change or disappear. */
  lemma ItemsStay(s: State, e: Event, lock: Digest -> int, id: Uuid)
    requires Inv(s, lock) && Enabled(s, e) && id in s.items
    ensures id in Step(s, e, lock).items && Step(s, e, lock).items[id] == s.items[id]
  {
    if e.Commit? {
      assert Fits(s, s.txs[e.t]);
    }
  }

  /** The lock makes the replay row's insert safe: the unique index never rejects it. */
  lemma InsertRowFindsNoRow(s: State, t: nat, now: int, lock: Digest -> int)
    requires Inv(s, lock) && Enabled(s, InsertRow(t, now))
    ensures Step(s, InsertRow(t, now), lock).txs[t].phase.RowIn?
  {
    assert Fits(s, s.txs[t]);
  }

  /** A committed row always leads to its item, so the invalid-state answer is unreachable. */
  lemma LookupFindsTheItem(s: State, t: nat, lock: Digest -> int)
    requires Inv(s, lock) && Enabled(s, Lookup(t))
    ensures Step(s, Lookup(t), lock).txs[t].phase != Leaving(Failure(IdempotencyState))
  {
  }

  // ----- Refinement of the atomic map -----

  ghost function Live(s: State): map<Digest, Entry> {
    map k | k in s.rows && s.rows[k].itemId in s.items :: Entry(s.rows[k].requestHash, s.items[s.rows[k].itemId])
  }

  ghost function Observe(s: State, e: Event, lock: Digest -> int): Observation
    requires Enabled(s, e)
  {
    match e
    case TryLock(t) => if LockTaken(s, t, lock) then Declined(s.txs[t].key) else Nothing
    case Lookup(t) =>
      var tx := s.txs[t];
      if Sees(s, tx) && s.rows[tx.key].requestHash != tx.fingerprint then Conflicted(tx.key, tx.fingerprint)
      else Nothing
    case Commit(t, _) =>
      var tx := s.txs[t];
      if tx.phase.RowIn? then Made(tx.key, Entry(tx.fingerprint, tx.value))
      else Replayed(tx.key, Entry(tx.fingerprint, tx.phase.item))
    case Abort(t, _) => Declined(s.txs[t].key)
    case _ => Nothing
  }

  /** The keys whose committed rows a step removes. */
  function Dropped(s: State, e: Event): set<Digest> {
    if e.Commit? && e.t in s.txs then s.txs[e.t].deletes else {}
  }

  lemma CommitRefines(s: State, t: nat, lost: Option<Error>, lock: Digest -> int)
    requires Enabled(s, Commit(t, lost)) && Shape(s.txs[t]) && Fits(s, s.txs[t])
    requires OriginsFit(s) && OriginsFit(AfterCommit(s, t, lost))
    ensures Atomic(Live(s), Live(AfterCommit(s, t, lost)), s.txs[t].deletes,
                   Observe(s, Commit(t, lost), lock))
  {
    var tx, r := s.txs[t], AfterCommit(s, t, lost);
    var base := Live(s) - tx.deletes;
    if tx.phase.RowIn? {
      LiveFromRows(r, base[tx.key := Entry(tx.fingerprint, tx.value)]);
    } else {
      LiveFromRows(r, base);
    }
  }

  lemma LiveFromRows(s: State, m: map<Digest, Entry>)
    requires OriginsFit(s) && m.Keys == s.rows.Keys
    requires forall k :: k in s.rows ==>
               m[k].fingerprint == s.rows[k].requestHash && m[k].item == s.items[s.rows[k].itemId]
    ensures Live(s) == m
  {
  }

  lemma QuietStepRefines(s: State, e: Event, lock: Digest -> int)
    requires Enabled(s, e) && !e.Commit? && OriginsFit(s) && OriginsFit(Step(s, e, lock))
    ensures Live(Step(s, e, lock)) == Live(s)
  {
    LiveFromRows(Step(s, e, lock), Live(s));
  }

  lemma QuietStepIsAtomic(s: State, e: Event, lock: Digest -> int)
    requires Enabled(s, e) && !e.Commit? && OriginsFit(s)
    ensures Atomic(Live(s), Live(s), {}, Observe(s, e, lock))
  {
    assert Live(s) - {} == Live(s);
  }

  /** Every statement of every transaction is a step of the atomic map. */
  lemma StepRefinesAtomic(s: State, e: Event, lock: Digest -> int)
    requires Inv(s, lock) && Enabled(s, e)
    ensures Atomic(Live(s), Live(Step(s, e, lock)), Dropped(s, e), Observe(s, e, lock))
  {
    assert OriginsFit(Step(s, e, lock)) by { StepKeepsInv(s, e, lock); }
    if e.Commit? {
      CommitRefines(s, e.t, e.lost, lock);
    } else {
      QuietStepRefines(s, e, lock);
      QuietStepIsAtomic(s, e, lock);
    }
  }

  // ----- Exactly one item per key and window -----

  /** The atomic maps the states of a run stand for. */
  ghost function Lives(states: seq<State>): (lives: seq<map<Digest, Entry>>)
    ensures |lives| == |states| && forall n :: 0 <= n < |states| ==> lives[n] == Live(states[n])
  {
    seq(|states|, n requires 0 <= n < |states| => Live(states[n]))
  }

  /** What the events of a run forget and show, event by event. */
  ghost predicate Traces(
      states: seq<State>, events: seq<Event>, lock: Digest -> int,
      dropped: seq<set<Digest>>, observed: seq<Observation>)
  {
    && |states| == |events| + 1 && |dropped| == |observed| == |events|
    && forall n :: 0 <= n < |events| ==> TracedAt(states, events, lock, dropped, observed, n)
  }

  ghost predicate TracedAt(
      states: seq<State>, events: seq<Event>, lock: Digest -> int,
      dropped: seq<set<Digest>>, observed: seq<Observation>, n: nat)
    requires n < |events| < |states| && |dropped| == |observed| == |events|
  {
    && Enabled(states[n], events[n])
    && dropped[n] == Dropped(states[n], events[n]) && observed[n] == Observe(states[n], events[n], lock)
  }

  /** Every run has its trace. */
  lemma TraceExists(states: seq<State>, events: seq<Event>, lock: Digest -> int)
      returns (dropped: seq<set<Digest>>, observed: seq<Observation>)
    requires IsRun(states, events, lock)
    ensures Traces(states, events, lock, dropped, observed)
  {
    forall n | 0 <= n < |events| ensures Enabled(states[n], events[n]) {
      assert IsStep(states, events, lock, n);
    }
    dropped := seq(|events|, n requires 0 <= n < |events| && Enabled(states[n], events[n]) =>
      Dropped(states[n], events[n]));
    observed := seq(|events|, n requires 0 <= n < |events| && Enabled(states[n], events[n]) =>
      Observe(states[n], events[n], lock));
  }

  lemma RunStepIsAtomic(
      states: seq<State>, events: seq<Event>, lock: Digest -> int,
      dropped: seq<set<Digest>>, observed: seq<Observation>, n: nat)
    requires IsRun(states, events, lock) && Traces(states, events, lock, dropped, observed) && n < |events|
    ensures Atomic(Live(states[n]), Live(states[n + 1]), dropped[n], observed[n])
  {
    assert IsStep(states, events, lock, n) && TracedAt(states, events, lock, dropped, observed, n);
    RunKeepsInv(states, events, lock, n);
    StepRefinesAtomic(states[n], events[n], lock);
  }

  /** Every run of any number of replicas is a run of the atomic map. */
  lemma RunRefinesAtomic(
      states: seq<State>, events: seq<Event>, lock: Digest -> int,
      dropped: seq<set<Digest>>, observed: seq<Observation>)
    requires IsRun(states, events, lock) && Traces(states, events, lock, dropped, observed)
    ensures AtomicRun(Lives(states), dropped, observed)
  {
    forall n | 0 <= n < |events| ensures Atomic(Lives(states)[n], Lives(states)[n + 1], dropped[n], observed[n]) {
      RunStepIsAtomic(states, events, lock, dropped, observed, n);
    }
  }

  /**
   * From the commit of an item and its row until a commit removes that row, the
   * key keeps that entry, across all replicas and whether or not the commit was
   * acknowledged: no second item is made for it, every replay returns that
   * item, and only other fingerprints conflict.
   */
  lemma OneItemPerKey(
      states: seq<State>, events: seq<Event>, lock: Digest -> int,
      dropped: seq<set<Digest>>, observed: seq<Observation>,
      i: nat, j: nat, k: Digest, entry: Entry)
    requires IsRun(states, events, lock) && Traces(states, events, lock, dropped, observed) && i < j <= |events|
    requires observed[i] == Made(k, entry) && forall m :: i < m < j ==> k !in dropped[m]
    ensures k in Live(states[j]) && Live(states[j])[k] == entry
    ensures forall m :: i < m < j ==> AgreesWith(observed[m], k, entry)
  {
    RunRefinesAtomic(states, events, lock, dropped, observed);
    EntryLastsUntilDropped(Lives(states), dropped, observed, i, j, k, entry);
  }

  // ----- Retention -----

  /** A committed row goes only in a commit whose clean-up clock was at its expiry or later. */
  lemma RowsOutliveTheirExpiry(s: State, e: Event, lock: Digest -> int, k: Digest)
    requires Inv(s, lock) && Enabled(s, e) && k in s.rows
    requires k !in Step(s, e, lock).rows || Step(s, e, lock).rows[k] != s.rows[k]
    ensures e.Commit? && k in s.txs[e.t].deletes && s.rows[k].expiresAt <= s.txs[e.t].sweptAt
  {
    assert Shape(s.txs[e.t]) && Fits(s, s.txs[e.t]);
  }

  /** Every commit strictly between steps i and j swept at a database clock below `limit`. */
  ghost predicate SweepsBelow(states: seq<State>, events: seq<Event>, i: nat, j: nat, limit: int)
    requires j <= |events| <= |states|
  {
    forall m :: i < m < j && events[m].Commit? && Enabled(states[m], events[m]) ==>
      states[m].txs[events[m].t].sweptAt < limit
  }

  /** The committed tables hold exactly what transaction `tx` wrote. */
  ghost predicate Stored(s: State, tx: Tx) {
    && tx.row.Some?
    && tx.key in s.rows
    && s.rows[tx.key] == tx.row.value
    && tx.value.id in s.items
    && s.items[tx.value.id] == tx.value
  }

  lemma StepKeepsStored(s: State, e: Event, lock: Digest -> int, tx: Tx)
    requires Inv(s, lock) && Enabled(s, e) && Stored(s, tx)
    requires e.Commit? ==> s.txs[e.t].sweptAt < tx.row.value.expiresAt
    ensures Stored(Step(s, e, lock), tx)
  {
    if tx.key !in Step(s, e, lock).rows || Step(s, e, lock).rows[tx.key] != s.rows[tx.key] {
      RowsOutliveTheirExpiry(s, e, lock, tx.key);
    }
    ItemsStay(s, e, lock, tx.value.id);
  }

  lemma CommitStores(s: State, t: nat, lost: Option<Error>, lock: Digest -> int)
    requires Inv(s, lock) && Enabled(s, Commit(t, lost)) && s.txs[t].phase.RowIn?
    ensures Stored(AfterCommit(s, t, lost), s.txs[t])
    ensures s.txs[t].row.value.requestHash == s.txs[t].fingerprint && s.txs[t].row.value.itemId == s.txs[t].value.id
  {
    assert Shape(s.txs[t]);
  }

  lemma {:induction false} StoredUntilExpiry(
      states: seq<State>, events: seq<Event>, lock: Digest -> int, i: nat, j: nat, c: nat, lost: Option<Error>)
    requires IsRun(states, events, lock) && i < j <= |events|
    requires events[i] == Commit(c, lost) && c in states[i].txs && states[i].txs[c].phase.RowIn?
    requires states[i].txs[c].row.Some?
    requires SweepsBelow(states, events, i, j, states[i].txs[c].row.value.expiresAt)
    ensures Stored(states[j], states[i].txs[c])
    decreases j
  {
    if i + 1 < j {
      StoredUntilExpiry(states, events, lock, i, j - 1, c, lost);
      RunKeepsStored(states, events, lock, j - 1, states[i].txs[c]);
    } else {
      assert IsStep(states, events, lock, i);
      RunKeepsInv(states, events, lock, i);
      CommitStores(states[i], c, lost, lock);
    }
  }

  lemma RunKeepsStored(states: seq<State>, events: seq<Event>, lock: Digest -> int, n: nat, tx: Tx)
    requires IsRun(states, events, lock) && n < |events| && Stored(states[n], tx)
    requires events[n].Commit? && Enabled(states[n], events[n]) ==>
               states[n].txs[events[n].t].sweptAt < tx.row.value.expiresAt
    ensures Stored(states[n + 1], tx)
  {
    assert IsStep(states, events, lock, n);
    RunKeepsInv(states, events, lock, n);
    StepKeepsStored(states[n], events[n], lock, tx);
  }

  // ----- Rows last 24 hours -----

  /** The replay row carries the retention: it expires 24 hours after the clock its insert read. */
  lemma RowExpiresAfterRetention(s: State, t: nat, now: int, lock: Digest -> int)
    requires Inv(s, lock) && Enabled(s, InsertRow(t, now))
    ensures Written(Step(s, InsertRow(t, now), lock).txs[t], now)
  {
    InsertRowFindsNoRow(s, t, now, lock);
  }

  /** The transaction has written its row, and the clock of the insert read `now`. */
  ghost predicate Written(tx: Tx, now: int) {
    tx.phase.RowIn? && tx.row == Some(Row(tx.fingerprint, tx.value.id, now + RETENTION))
  }

  lemma StepKeepsWritten(s: State, e: Event, lock: Digest -> int, t: nat, now: int)
    requires Enabled(s, e) && t in s.txs && (s.txs[t].phase.Ended? || Written(s.txs[t], now))
    ensures var r := Step(s, e, lock); t in r.txs && (r.txs[t].phase.Ended? || Written(r.txs[t], now))
  {
  }

  lemma RunWrites(states: seq<State>, events: seq<Event>, lock: Digest -> int, n: nat, t: nat, now: int)
    requires IsRun(states, events, lock) && n < |events| && events[n] == InsertRow(t, now)
    ensures t in states[n + 1].txs && Written(states[n + 1].txs[t], now)
  {
    assert IsStep(states, events, lock, n);
    RunKeepsInv(states, events, lock, n);
    RowExpiresAfterRetention(states[n], t, now, lock);
  }

  lemma {:induction false} WrittenUntilEnded(
      states: seq<State>, events: seq<Event>, lock: Digest -> int, h: nat, n: nat, t: nat, now: int)
    requires IsRun(states, events, lock) && h < n < |states| && events[h] == InsertRow(t, now)
    ensures t in states[n].txs && (states[n].txs[t].phase.Ended? || Written(states[n].txs[t], now))
    decreases n
  {
    if h + 1 == n {
      RunWrites(states, events, lock, h, t, now);
    } else {
      WrittenUntilEnded(states, events, lock, h, n - 1, t, now);
      assert IsStep(states, events, lock, n - 1);
      StepKeepsWritten(states[n - 1], events[n - 1], lock, t, now);
    }
  }

  /** What a transaction commits after its row insert at `now` is a row that expires 24 hours after `now`. */
  lemma CommitsWhatItWrote(
      states: seq<State>, events: seq<Event>, lock: Digest -> int, h: nat, i: nat,
      t: nat, now: int, lost: Option<Error>)
    requires IsRun(states, events, lock) && h < i < |events|
    requires events[h] == InsertRow(t, now) && events[i] == Commit(t, lost)
    ensures t in states[i].txs && Written(states[i].txs[t], now)
  {
    WrittenUntilEnded(states, events, lock, h, i, t, now);
    assert IsStep(states, events, lock, i);
  }

  /** Event `m` is the row insert of transaction `t`, 24 hours before `expiresAt`. */
  ghost predicate StampedAt(events: seq<Event>, m: nat, t: nat, expiresAt: int) {
    m < |events| && events[m] == InsertRow(t, expiresAt - RETENTION)
  }

  lemma RowComesFromInsert(s: State, e: Event, lock: Digest -> int, t: nat)
    requires Inv(s, lock) && Enabled(s, e)
    requires t in Step(s, e, lock).txs && Step(s, e, lock).txs[t].row.Some?
    ensures var row := Step(s, e, lock).txs[t].row;
            (t in s.txs && s.txs[t].row == row) || e == InsertRow(t, row.value.expiresAt - RETENTION)
  {
  }

  /** Every row a transaction holds was inserted by it at some step before, 24 hours before its expiry. */
  lemma {:induction false} HeldRowWasStamped(
      states: seq<State>, events: seq<Event>, lock: Digest -> int, n: nat, t: nat)
    requires IsRun(states, events, lock) && n < |states| && t in states[n].txs && states[n].txs[t].row.Some?
    ensures exists m :: 0 <= m < n && StampedAt(events, m, t, states[n].txs[t].row.value.expiresAt)
    decreases n
  {
    if n > 0 {
      assert IsStep(states, events, lock, n - 1);
      RunKeepsInv(states, events, lock, n - 1);
      RowComesFromInsert(states[n - 1], events[n - 1], lock, t);
      if !StampedAt(events, n - 1, t, states[n].txs[t].row.value.expiresAt) {
        HeldRowWasStamped(states, events, lock, n - 1, t);
      }
    }
  }

  lemma CommittedRowComesFromHeld(s: State, e: Event, lock: Digest -> int, k: Digest)
    requires Enabled(s, e) && k in Step(s, e, lock).rows
    ensures (k in s.rows && s.rows[k] == Step(s, e, lock).rows[k])
            || (e.Commit? && s.txs[e.t].row == Some(Step(s, e, lock).rows[k]))
  {
  }

  /** Every committed row, in every state of every run, was stamped 24 hours before its expiry. */
  lemma {:induction false} CommittedRowWasStamped(
      states: seq<State>, events: seq<Event>, lock: Digest -> int, n: nat, k: Digest)
    requires IsRun(states, events, lock) && n < |states| && k in states[n].rows
    ensures exists m, t :: 0 <= m < n && StampedAt(events, m, t, states[n].rows[k].expiresAt)
    decreases n
  {
    if n > 0 {
      assert IsStep(states, events, lock, n - 1);
      CommittedRowComesFromHeld(states[n - 1], events[n - 1], lock, k);
      if k in states[n - 1].rows && states[n - 1].rows[k] == states[n].rows[k] {
        CommittedRowWasStamped(states, events, lock, n - 1, k);
      } else {
        HeldRowWasStamped(states, events, lock, n - 1, events[n - 1].t);
      }
    }
  }

  /**
   * The 24 hours: a row inserted at `now` and committed, and its item, stay as
   * written while every committed clean-up read a clock within 24 hours of `now`.
   */
  lemma RowStaysStored(
      states: seq<State>, events: seq<Event>, lock: Digest -> int, h: nat, i: nat, j: nat,
      c: nat, now: int, lost: Option<Error>)
    requires IsRun(states, events, lock) && h < i < j <= |events|
    requires events[h] == InsertRow(c, now) && events[i] == Commit(c, lost)
    requires SweepsBelow(states, events, i, j, now + RETENTION)
    ensures c in states[i].txs && Written(states[i].txs[c], now) && Stored(states[j], states[i].txs[c])
  {
    CommitsWhatItWrote(states, events, lock, h, i, c, now, lost);
    StoredUntilExpiry(states, events, lock, i, j, c, lost);
  }

  /**
   * A retry's lookup after the commit, while every clean-up since, its own
   * included, read a clock within 24 hours of the row's insert, hits the
   * committed item or conflicts, depending on the fingerprint alone; it never
   * creates.
   */
  lemma RetryReplaysOrConflicts(
      states: seq<State>, events: seq<Event>, lock: Digest -> int, h: nat, i: nat, j: nat,
      c: nat, now: int, lost: Option<Error>, d: nat)
    requires IsRun(states, events, lock) && h < i < j < |events|
    requires events[h] == InsertRow(c, now) && events[i] == Commit(c, lost) && c in states[i].txs
    requires SweepsBelow(states, events, i, j, now + RETENTION)
    requires events[j] == Lookup(d) && d in states[j].txs && d in states[j + 1].txs
    requires states[j].txs[d].key == states[i].txs[c].key && states[j].txs[d].sweptAt < now + RETENTION
    ensures states[j + 1].txs[d].phase ==
            if states[j].txs[d].fingerprint == states[i].txs[c].fingerprint
            then Hit(states[i].txs[c].value)
            else Leaving(Failure(IdempotencyConflict))
  {
    assert IsStep(states, events, lock, j);
    RowStaysStored(states, events, lock, h, i, j, c, now, lost);
    assert Fits(states[j], states[j].txs[d]) by { RunKeepsInv(states, events, lock, j); }
  }

  // ----- Answers were decided at their commit -----

  /** The transaction is not there yet, or still open. */
  ghost predicate Undecided(s: State, t: nat) {
    t in s.txs ==> !s.txs[t].phase.Ended?
  }

  /** What an answered transaction must have shown at its commit. */
  ghost function Claim(tx: Tx): Observation
    requires tx.phase.Ended? && tx.phase.response.Success?
  {
    var entry := Entry(tx.fingerprint, tx.phase.response.item);
    if tx.phase.response.replayed then Replayed(tx.key, entry) else Made(tx.key, entry)
  }

  /** Every successful answer was the transaction's own acknowledged commit, after any moment at which it was open. */
  lemma {:induction false} SuccessWasCommitted(
      states: seq<State>, events: seq<Event>, lock: Digest -> int,
      dropped: seq<set<Digest>>, observed: seq<Observation>,
      l: nat, n: nat, t: nat, tx: Tx)
    requires IsRun(states, events, lock) && Traces(states, events, lock, dropped, observed)
    requires l <= n < |states| && Undecided(states[l], t)
    requires t in states[n].txs && states[n].txs[t] == tx && tx.phase.Ended? && tx.phase.response.Success?
    ensures exists m :: l <= m < n && events[m] == Commit(t, None) && observed[m] == Claim(tx)
    decreases n
  {
    if l < n {
      RunClaims(states, events, lock, dropped, observed, n - 1, t);
      if !(events[n - 1] == Commit(t, None) && observed[n - 1] == Claim(tx)) {
        SuccessWasCommitted(states, events, lock, dropped, observed, l, n - 1, t, tx);
      }
    }
  }

  lemma RunClaims(
      states: seq<State>, events: seq<Event>, lock: Digest -> int,
      dropped: seq<set<Digest>>, observed: seq<Observation>,
      n: nat, t: nat)
    requires IsRun(states, events, lock) && Traces(states, events, lock, dropped, observed) && n < |events|
    requires t in states[n + 1].txs && states[n + 1].txs[t].phase.Ended? && states[n + 1].txs[t].phase.response.Success?
    ensures (t in states[n].txs && states[n].txs[t] == states[n + 1].txs[t])
            || (events[n] == Commit(t, None) && observed[n] == Claim(states[n + 1].txs[t]))
  {
    assert IsStep(states, events, lock, n) && TracedAt(states, events, lock, dropped, observed, n);
    assert t in states[n].txs ==> Shape(states[n].txs[t]) by { RunKeepsInv(states, events, lock, n); }
    SuccessStep(states[n], events[n], lock, t);
  }

  /**
   * What clients see: from the commit of an item for a key until a commit removes
   * its row, every transaction that was open at that commit or came later and
   * succeeds returns that very item, to the fingerprint it was made for.
   */
  lemma ClientsGetTheItem(
      states: seq<State>, events: seq<Event>, lock: Digest -> int,
      dropped: seq<set<Digest>>, observed: seq<Observation>,
      i: nat, j: nat, k: Digest, entry: Entry, t: nat)
    requires IsRun(states, events, lock) && Traces(states, events, lock, dropped, observed) && i < j <= |events|
    requires observed[i] == Made(k, entry) && forall m :: i < m < j ==> k !in dropped[m]
    requires Undecided(states[i], t) && t in states[j].txs && states[j].txs[t].key == k
    requires states[j].txs[t].phase.Ended? && states[j].txs[t].phase.response.Success?
    ensures states[j].txs[t].phase.response.item == entry.item && states[j].txs[t].fingerprint == entry.fingerprint
  {
    var tx := states[j].txs[t];
    SuccessWasCommitted(states, events, lock, dropped, observed, i, j, t, tx);
    var m :| i <= m < j && events[m] == Commit(t, None) && observed[m] == Claim(tx);
    OneItemPerKey(states, events, lock, dropped, observed, i, j, k, entry);
    assert m > i ==> AgreesWith(Claim(tx), k, entry);
  }

  lemma SuccessStep(s: State, e: Event, lock: Digest -> int, t: nat)
    requires Enabled(s, e) && t in Step(s, e, lock).txs && (t in s.txs ==> Shape(s.txs[t]))
    requires Step(s, e, lock).txs[t].phase.Ended? && Step(s, e, lock).txs[t].phase.response.Success?
    ensures t in s.txs && (s.txs[t] == Step(s, e, lock).txs[t] || e == Commit(t, None))
  {
  }

  // ----- Lock numbers -----

  /** Dividing a 256-bit digest by this leaves the number its first eight bytes spell. */
  const LAST_24_BYTES := 0x1_000000000000_000000000000_000000000000_000000000000
  const SIGN_BIT := 0x8000_0000_0000_0000

  /** The number the adapter locks for a key: the first eight bytes without the sign bit. */
  function AdvisoryLockId(hash: Digest): int {
    (hash / LAST_24_BYTES) % SIGN_BIT
  }

  /** Lock numbers are the first eight bytes without their sign bit, so different keys can share one. */
  lemma LockIdsAreSharedBigints(first: nat, rest: nat, rest': nat)
    requires rest < LAST_24_BYTES && rest' < LAST_24_BYTES
    ensures 0 <= AdvisoryLockId(first * LAST_24_BYTES + rest) < SIGN_BIT
    ensures first < SIGN_BIT ==> AdvisoryLockId(first * LAST_24_BYTES + rest) == first
    ensures AdvisoryLockId(first * LAST_24_BYTES + rest) == AdvisoryLockId((first + SIGN_BIT) * LAST_24_BYTES + rest')
  {
    assert (first * LAST_24_BYTES + rest) / LAST_24_BYTES == first;
    assert ((first + SIGN_BIT) * LAST_24_BYTES + rest') / LAST_24_BYTES == first + SIGN_BIT;
  }
}
