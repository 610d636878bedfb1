/**
 * Keyed creates of any number of replicas against one PostgreSQL database,
 * interleaved at statement boundaries.
 *
 * A statement sees the committed tables and the writes of its own transaction
 * (read committed). A statement that would wait for another transaction is not
 * enabled until that transaction has ended. Advisory locks are tried, held to
 * the end of the transaction, and named by a number derived from the key.
 */
module PostgresProtocol {
  import opened Items

  const CLEANUP_BATCH := 100

  /** A row of the replay table, stored under its key hash. */
  datatype Row = Row(requestHash: Digest, itemId: Uuid, expiresAt: int)

  datatype Response = Success(item: Item, replayed: bool) | Failure(error: Error)

  datatype Phase =
    | Begun                        // transaction open
    | Locked                       // advisory lock taken
    | Swept                        // expired rows deleted, uncommitted
    | Vacant                       // lookup found no row
    | ItemIn                       // item inserted, uncommitted
    | RowIn                        // replay row inserted, uncommitted
    | Hit(item: Item)              // lookup found a matching row and its item
    | Leaving(response: Response)  // answer known, rollback outstanding
    | Ended(response: Response)    // committed or rolled back, nothing held

  /**
   * `deletes` are the rows this transaction has deleted and so locks, `rowLock`
   * says that it locks the row of its own key, `item` that its item is
   * inserted but not committed, and `row` is its uncommitted replay row.
   * `sweptAt` is the database clock its clean-up read.
   */
  datatype Tx = Tx(
    key: Digest, fingerprint: Digest, value: Item, phase: Phase,
    locked: bool, deletes: set<Digest>, sweptAt: int, rowLock: bool, item: bool, row: Option<Row>)

  datatype Origin = Origin(key: Digest, fingerprint: Digest)

  /**
   * The committed tables and the transactions. `plain` and `origin` remember
   * how each committed item came in; no step reads them.
   */
  datatype State = State(
    items: map<Uuid, Item>, rows: map<Digest, Row>, txs: map<nat, Tx>,
    plain: set<Uuid>, origin: map<Uuid, Origin>)

  const INIT := State(map[], map[], map[], {}, map[])

  datatype Event =
    | PlainInsert(value: Item)
    | Start(t: nat, key: Digest, fingerprint: Digest, candidate: Item)
    | TryLock(t: nat)
    | Sweep(t: nat, now: int, chosen: set<Digest>)
    | Lookup(t: nat)
    | InsertItem(t: nat)
    | InsertRow(t: nat, now: int)
    | Commit(t: nat, lost: Option<Error>)
    | Rollback(t: nat)
    | Abort(t: nat, error: Error)

  /** Another open transaction locks the committed row of `k`. */
  ghost predicate RowLockedByOther(s: State, t: nat, k: Digest) {
    exists u :: u in s.txs && u != t && (k in s.txs[u].deletes || (s.txs[u].rowLock && s.txs[u].key == k))
  }

  /** Another open transaction has inserted the same item ID. */
  ghost predicate ItemInsertedByOther(s: State, t: nat, id: Uuid) {
    exists u :: u in s.txs && u != t && s.txs[u].item && s.txs[u].value.id == id
  }

  ghost predicate Eligible(s: State, t: nat, now: int, k: Digest) {
    k in s.rows && s.rows[k].expiresAt <= now && !RowLockedByOther(s, t, k)
  }

  /** The rows one clean-up statement takes: the 100 earliest expired ones it can lock. */
  ghost predicate IsBatch(s: State, t: nat, now: int, chosen: set<Digest>) {
    && |chosen| <= CLEANUP_BATCH
    && (forall k :: k in chosen ==> Eligible(s, t, now, k))
    && (forall k :: Eligible(s, t, now, k) && k !in chosen ==>
          && |chosen| == CLEANUP_BATCH
          && forall j :: j in chosen && j in s.rows ==> s.rows[j].expiresAt <= s.rows[k].expiresAt)
  }

  /** The row of the transaction's key that its statements see. */
  predicate Sees(s: State, tx: Tx) {
    tx.key in s.rows && tx.key !in tx.deletes
  }

  ghost predicate Enabled(s: State, e: Event) {
    match e
    case PlainInsert(value) =>
      value.id !in s.items && forall u :: u in s.txs && s.txs[u].item ==> s.txs[u].value.id != value.id
    case Start(t, _, _, _) => t !in s.txs
    case TryLock(t) => t in s.txs && s.txs[t].phase.Begun?
    case Sweep(t, now, chosen) => t in s.txs && s.txs[t].phase.Locked? && IsBatch(s, t, now, chosen)
    case Lookup(t) =>
      && t in s.txs
      && s.txs[t].phase.Swept?
      && (Sees(s, s.txs[t]) ==> !RowLockedByOther(s, t, s.txs[t].key))
    case InsertItem(t) =>
      t in s.txs && s.txs[t].phase.Vacant? && !ItemInsertedByOther(s, t, s.txs[t].value.id)
    case InsertRow(t, _) =>
      && t in s.txs
      && s.txs[t].phase.ItemIn?
      && (Sees(s, s.txs[t]) ==> !RowLockedByOther(s, t, s.txs[t].key))
    case Commit(t, lost) => t in s.txs && (s.txs[t].phase.RowIn? || s.txs[t].phase.Hit?) && IsLoss(lost)
    case Rollback(t) => t in s.txs && s.txs[t].phase.Leaving?
    case Abort(t, _) => t in s.txs && !s.txs[t].phase.Ended?
  }

  /** Another open transaction holds the advisory lock this one asks for. */
  ghost predicate LockTaken(s: State, t: nat, lock: Digest -> int)
    requires t in s.txs
  {
    exists u :: u in s.txs && u != t && s.txs[u].locked && lock(s.txs[u].key) == lock(s.txs[t].key)
  }

  ghost function AfterTryLock(s: State, t: nat, lock: Digest -> int): Tx
    requires t in s.txs
  {
    if LockTaken(s, t, lock) then s.txs[t].(phase := Leaving(Failure(IdempotencyInProgress)))
    else s.txs[t].(phase := Locked, locked := true)
  }

  function AfterLookup(s: State, tx: Tx): Tx {
    if !Sees(s, tx) then tx.(phase := Vacant)
    else if s.rows[tx.key].requestHash != tx.fingerprint then
      tx.(phase := Leaving(Failure(IdempotencyConflict)), rowLock := true)
    else if s.rows[tx.key].itemId in s.items then
      tx.(phase := Hit(s.items[s.rows[tx.key].itemId]), rowLock := true)
    else tx.(phase := Leaving(Failure(IdempotencyState)), rowLock := true)
  }

  function AfterInsertItem(s: State, tx: Tx): Tx {
    if tx.value.id in s.items then tx.(phase := Leaving(Failure(Conflict)))
    else tx.(phase := ItemIn, item := true)
  }

  function AfterInsertRow(s: State, tx: Tx, now: int): Tx {
    if Sees(s, tx) then tx.(phase := Leaving(Failure(Conflict)))
    else tx.(phase := RowIn, row := Some(Row(tx.fingerprint, tx.value.id, now + RETENTION)))
  }

  function Released(tx: Tx, response: Response): Tx {
    tx.(phase := Ended(response), locked := false, deletes := {}, rowLock := false, item := false, row := None)
  }

  /** The answer when the commit goes through and its acknowledgement is lost: unavailable, or the ended context. */
  predicate IsLoss(lost: Option<Error>) {
    lost.Some? ==> lost.value.IdempotencyUnavailable? || lost.value.Canceled? || lost.value.DeadlineExceeded?
  }

  function CommitResponse(tx: Tx, lost: Option<Error>): Response
    requires tx.phase.RowIn? || tx.phase.Hit?
  {
    if lost.Some? then Failure(lost.value)
    else if tx.phase.RowIn? then Success(tx.value, false)
    else Success(tx.phase.item, true)
  }

  function AfterCommit(s: State, t: nat, lost: Option<Error>): State
    requires t in s.txs && (s.txs[t].phase.RowIn? || s.txs[t].phase.Hit?)
  {
    var tx := s.txs[t];
    State(
      if tx.item then s.items[tx.value.id := tx.value] else s.items,
      if tx.row.Some? then (s.rows - tx.deletes)[tx.key := tx.row.value] else s.rows - tx.deletes,
      s.txs[t := Released(tx, CommitResponse(tx, lost))],
      s.plain,
      if tx.item then s.origin[tx.value.id := Origin(tx.key, tx.fingerprint)] else s.origin)
  }

  ghost function Step(s: State, e: Event, lock: Digest -> int): State
    requires Enabled(s, e)
  {
    match e
    case PlainInsert(value) => s.(items := s.items[value.id := value], plain := s.plain + {value.id})
    case Start(t, key, fingerprint, candidate) =>
      s.(txs := s.txs[t := Tx(key, fingerprint, candidate, Begun, false, {}, 0, false, false, None)])
    case TryLock(t) => s.(txs := s.txs[t := AfterTryLock(s, t, lock)])
    case Sweep(t, now, chosen) => s.(txs := s.txs[t := s.txs[t].(phase := Swept, deletes := chosen, sweptAt := now)])
    case Lookup(t) => s.(txs := s.txs[t := AfterLookup(s, s.txs[t])])
    case InsertItem(t) => s.(txs := s.txs[t := AfterInsertItem(s, s.txs[t])])
    case InsertRow(t, now) => s.(txs := s.txs[t := AfterInsertRow(s, s.txs[t], now)])
    case Commit(t, lost) => AfterCommit(s, t, lost)
    case Rollback(t) => s.(txs := s.txs[t := Released(s.txs[t], s.txs[t].phase.response)])
    case Abort(t, error) => s.(txs := s.txs[t := Released(s.txs[t], Failure(error))])
  }

  // ----- What every reachable state keeps -----

  /** What a transaction holds in each phase. */
  ghost predicate Shape(tx: Tx) {
    && (!tx.locked ==> tx.deletes == {} && !tx.rowLock && !tx.item && tx.row.None?)
    && (tx.phase.Begun? || tx.phase.Ended? ==> !tx.locked)
    && (tx.phase.Locked? ==> tx.locked && tx.deletes == {})
    && (tx.phase.Swept? || tx.phase.Vacant? || tx.phase.ItemIn? || tx.phase.RowIn? || tx.phase.Hit? ==> tx.locked)
    && (tx.rowLock ==> tx.phase.Hit? || tx.phase.Leaving?)
    && (tx.phase.Hit? ==> tx.rowLock)
    && (tx.item ==> tx.phase.ItemIn? || tx.phase.RowIn? || tx.phase.Leaving?)
    && (tx.phase.ItemIn? || tx.phase.RowIn? ==> tx.item)
    && (tx.row.Some? <==> tx.phase.RowIn?)
    && (tx.phase.Leaving? ==> tx.phase.response.Failure?)
    && (tx.row.Some? ==> tx.row.value.requestHash == tx.fingerprint && tx.row.value.itemId == tx.value.id)
  }

  /** How a transaction's view fits the committed tables. */
  ghost predicate Fits(s: State, tx: Tx) {
    && (forall k :: k in tx.deletes ==> k in s.rows && s.rows[k].expiresAt <= tx.sweptAt)
    && (tx.rowLock ==> Sees(s, tx))
    && (tx.phase.Vacant? || tx.phase.ItemIn? || tx.phase.RowIn? ==> !Sees(s, tx))
    && (tx.phase.Hit? ==>
          && Sees(s, tx)
          && s.rows[tx.key].requestHash == tx.fingerprint
          && s.rows[tx.key].itemId in s.items
          && s.items[s.rows[tx.key].itemId] == tx.phase.item)
    && (tx.item ==> tx.value.id !in s.items)
  }

  /** What two transactions may not hold at once. */
  ghost predicate Apart(a: Tx, b: Tx, lock: Digest -> int) {
    && (a.locked && b.locked ==> lock(a.key) != lock(b.key))
    && a.deletes !! b.deletes
    && (a.rowLock ==> a.key !in b.deletes)
    && (b.rowLock ==> b.key !in a.deletes)
    && (a.item && b.item ==> a.value.id != b.value.id)
  }

  /** Every committed row names a committed item that came in with it. */
  ghost predicate OriginsFit(s: State) {
    && s.plain !! s.origin.Keys
    && s.items.Keys == s.plain + s.origin.Keys
    && (forall id :: id in s.items ==> s.items[id].id == id)
    && (forall k :: k in s.rows ==>
          s.rows[k].itemId in s.origin && s.origin[s.rows[k].itemId] == Origin(k, s.rows[k].requestHash))
  }

  ghost predicate TxsFit(s: State) {
    forall t :: t in s.txs ==> Shape(s.txs[t]) && Fits(s, s.txs[t])
  }

  ghost predicate TxsApart(s: State, lock: Digest -> int) {
    forall t, u :: t in s.txs && u in s.txs && t != u ==> Apart(s.txs[t], s.txs[u], lock)
  }

  ghost predicate Inv(s: State, lock: Digest -> int) {
    TxsFit(s) && TxsApart(s, lock) && OriginsFit(s)
  }

  /** A step that changes one transaction and no table. */
  lemma TxStepKeepsInv(s: State, t: nat, tx: Tx, lock: Digest -> int)
    requires Inv(s, lock) && Shape(tx) && Fits(s, tx)
    requires forall u :: u in s.txs && u != t ==> Apart(tx, s.txs[u], lock)
    ensures Inv(s.(txs := s.txs[t := tx]), lock)
  {
    var r := s.(txs := s.txs[t := tx]);
    forall u | u in r.txs ensures Shape(r.txs[u]) && Fits(r, r.txs[u]) {
      if u != t { assert Fits(s, s.txs[u]); }
    }
    forall u, v | u in r.txs && v in r.txs && u != v ensures Apart(r.txs[u], r.txs[v], lock) {
      if u == t { assert Apart(tx, s.txs[v], lock); }
      else if v == t { assert Apart(tx, s.txs[u], lock); }
    }
  }

  /** A transaction that takes no new lock stays apart from the others. */
  lemma HoldingLessStaysApart(s: State, t: nat, tx: Tx, lock: Digest -> int)
    requires TxsApart(s, lock) && t in s.txs && tx.key == s.txs[t].key && tx.value == s.txs[t].value
    requires tx.locked ==> s.txs[t].locked
    requires tx.rowLock ==> s.txs[t].rowLock
    requires tx.item ==> s.txs[t].item
    requires tx.deletes <= s.txs[t].deletes
    ensures forall u :: u in s.txs && u != t ==> Apart(tx, s.txs[u], lock)
  {
    forall u | u in s.txs && u != t ensures Apart(tx, s.txs[u], lock) {
      assert Apart(s.txs[t], s.txs[u], lock);
    }
  }

  lemma LockStepKeepsInv(s: State, t: nat, lock: Digest -> int)
    requires Inv(s, lock) && Enabled(s, TryLock(t))
    ensures Inv(Step(s, TryLock(t), lock), lock)
  {
    var tx := AfterTryLock(s, t, lock);
    forall u | u in s.txs && u != t ensures Apart(tx, s.txs[u], lock) {
      assert Apart(s.txs[t], s.txs[u], lock);
    }
    assert Fits(s, s.txs[t]);
    TxStepKeepsInv(s, t, tx, lock);
  }

  lemma SweepKeepsInv(s: State, t: nat, now: int, chosen: set<Digest>, lock: Digest -> int)
    requires Inv(s, lock) && Enabled(s, Sweep(t, now, chosen))
    ensures Inv(Step(s, Sweep(t, now, chosen), lock), lock)
  {
    var tx := s.txs[t].(phase := Swept, deletes := chosen, sweptAt := now);
    forall u | u in s.txs && u != t ensures Apart(tx, s.txs[u], lock) {
      assert Apart(s.txs[t], s.txs[u], lock);
      forall k | k in chosen ensures k !in s.txs[u].deletes && !(s.txs[u].rowLock && s.txs[u].key == k) {
        assert Eligible(s, t, now, k);
      }
    }
    forall k | k in chosen ensures k in s.rows && s.rows[k].expiresAt <= now {
      assert Eligible(s, t, now, k);
    }
    assert Shape(s.txs[t]);
    TxStepKeepsInv(s, t, tx, lock);
  }

  lemma LookupKeepsInv(s: State, t: nat, lock: Digest -> int)
    requires Inv(s, lock) && Enabled(s, Lookup(t))
    ensures Inv(Step(s, Lookup(t), lock), lock)
  {
    var tx := AfterLookup(s, s.txs[t]);
    forall u | u in s.txs && u != t ensures Apart(tx, s.txs[u], lock) {
      assert Apart(s.txs[t], s.txs[u], lock);
    }
    assert Shape(s.txs[t]) && Fits(s, s.txs[t]);
    TxStepKeepsInv(s, t, tx, lock);
  }

  lemma InsertItemKeepsInv(s: State, t: nat, lock: Digest -> int)
    requires Inv(s, lock) && Enabled(s, InsertItem(t))
    ensures Inv(Step(s, InsertItem(t), lock), lock)
  {
    var tx := AfterInsertItem(s, s.txs[t]);
    forall u | u in s.txs && u != t ensures Apart(tx, s.txs[u], lock) {
      assert Apart(s.txs[t], s.txs[u], lock);
    }
    assert Shape(s.txs[t]) && Fits(s, s.txs[t]);
    TxStepKeepsInv(s, t, tx, lock);
  }

  lemma InsertRowKeepsInv(s: State, t: nat, now: int, lock: Digest -> int)
    requires Inv(s, lock) && Enabled(s, InsertRow(t, now))
    ensures Inv(Step(s, InsertRow(t, now), lock), lock)
  {
    assert Shape(s.txs[t]) && Fits(s, s.txs[t]);
    HoldingLessStaysApart(s, t, AfterInsertRow(s, s.txs[t], now), lock);
    TxStepKeepsInv(s, t, AfterInsertRow(s, s.txs[t], now), lock);
  }

  lemma EndKeepsInv(s: State, t: nat, response: Response, lock: Digest -> int)
    requires Inv(s, lock) && t in s.txs
    ensures Inv(s.(txs := s.txs[t := Released(s.txs[t], response)]), lock)
  {
    HoldingLessStaysApart(s, t, Released(s.txs[t], response), lock);
    TxStepKeepsInv(s, t, Released(s.txs[t], response), lock);
  }

  lemma StartKeepsInv(s: State, e: Event, lock: Digest -> int)
    requires Inv(s, lock) && Enabled(s, e) && e.Start?
    ensures Inv(Step(s, e, lock), lock)
  {
    TxStepKeepsInv(s, e.t, Tx(e.key, e.fingerprint, e.candidate, Begun, false, {}, 0, false, false, None), lock);
  }

  lemma PlainInsertKeepsInv(s: State, value: Item, lock: Digest -> int)
    requires Inv(s, lock) && Enabled(s, PlainInsert(value))
    ensures Inv(Step(s, PlainInsert(value), lock), lock)
  {
    var r := Step(s, PlainInsert(value), lock);
    forall t | t in r.txs ensures Shape(r.txs[t]) && Fits(r, r.txs[t]) {
      assert Fits(s, s.txs[t]);
    }
    forall t, u | t in r.txs && u in r.txs && t != u ensures Apart(r.txs[t], r.txs[u], lock) {
      assert Apart(s.txs[t], s.txs[u], lock);
    }
  }

  /** A commit leaves every other transaction's view of the tables intact. */
  lemma CommitKeepsOthers(s: State, t: nat, lost: Option<Error>, u: nat, lock: Digest -> int)
    requires Inv(s, lock) && Enabled(s, Commit(t, lost)) && u in s.txs && u != t
    ensures Shape(s.txs[u]) && Fits(AfterCommit(s, t, lost), s.txs[u])
  {
    var r := AfterCommit(s, t, lost);
    var tx, ux := s.txs[t], s.txs[u];
    assert Shape(tx) && Fits(s, tx);
    assert Shape(ux) && Fits(s, ux);
    assert Apart(tx, ux, lock);
    forall k | k in ux.deletes ensures k in r.rows && r.rows[k].expiresAt <= ux.sweptAt {
      assert k !in tx.deletes;
    }
    if ux.locked {
      assert ux.key != tx.key;
      assert Sees(r, ux) ==> Sees(s, ux);
    }
  }

  lemma CommitKeepsOrigins(s: State, t: nat, lost: Option<Error>)
    requires TxsFit(s) && OriginsFit(s) && Enabled(s, Commit(t, lost))
    ensures OriginsFit(AfterCommit(s, t, lost))
  {
    assert Shape(s.txs[t]) && Fits(s, s.txs[t]);
  }

  lemma CommitKeepsInv(s: State, t: nat, lost: Option<Error>, lock: Digest -> int)
    requires Inv(s, lock) && Enabled(s, Commit(t, lost))
    ensures Inv(AfterCommit(s, t, lost), lock)
  {
    CommitKeepsOrigins(s, t, lost);
    CommitKeepsTxs(s, t, lost, lock);
    CommitKeepsApart(s, t, lost, lock);
  }

  lemma CommitKeepsTxs(s: State, t: nat, lost: Option<Error>, lock: Digest -> int)
    requires Inv(s, lock) && Enabled(s, Commit(t, lost))
    ensures TxsFit(AfterCommit(s, t, lost))
  {
    var r := AfterCommit(s, t, lost);
    forall u | u in r.txs ensures Shape(r.txs[u]) && Fits(r, r.txs[u]) {
      if u != t { CommitKeepsOthers(s, t, lost, u, lock); }
    }
  }

  lemma CommitKeepsApart(s: State, t: nat, lost: Option<Error>, lock: Digest -> int)
    requires Inv(s, lock) && Enabled(s, Commit(t, lost))
    ensures TxsApart(AfterCommit(s, t, lost), lock)
  {
    var r := AfterCommit(s, t, lost);
    HoldingLessStaysApart(s, t, r.txs[t], lock);
    forall u, v | u in r.txs && v in r.txs && u != v ensures Apart(r.txs[u], r.txs[v], lock) {
      if u == t { assert Apart(r.txs[t], s.txs[v], lock); }
      else if v == t { assert Apart(r.txs[t], s.txs[u], lock); }
    }
  }

  /** Whatever statement any transaction executes, the invariant survives it. */
  lemma StepKeepsInv(s: State, e: Event, lock: Digest -> int)
    requires Inv(s, lock) && Enabled(s, e)
    ensures Inv(Step(s, e, lock), lock)
  {
    match e
    case PlainInsert(value) => PlainInsertKeepsInv(s, value, lock);
    case Start(_, _, _, _) => StartKeepsInv(s, e, lock);
    case TryLock(t) => LockStepKeepsInv(s, t, lock);
    case Sweep(t, now, chosen) => SweepKeepsInv(s, t, now, chosen, lock);
    case Lookup(t) => LookupKeepsInv(s, t, lock);
    case InsertItem(t) => InsertItemKeepsInv(s, t, lock);
    case InsertRow(t, now) => InsertRowKeepsInv(s, t, now, lock);
    case Commit(t, lost) => CommitKeepsInv(s, t, lost, lock);
    case Rollback(t) => EndKeepsInv(s, t, s.txs[t].phase.response, lock);
    case Abort(t, error) => EndKeepsInv(s, t, Failure(error), lock);
  }
}
