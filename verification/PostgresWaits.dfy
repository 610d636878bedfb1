/** Which transactions wait for which: when two of them block each other, and how that ends. */
module PostgresWaits {
  import opened Items
  import opened PostgresProtocol
  import opened PostgresRuns

  /** The next statement of the transaction cannot go on now. Only a lookup and the two inserts ever wait. */
  ghost predicate Stalled(s: State, t: nat) {
    && t in s.txs
    && match s.txs[t].phase
       case Swept => !Enabled(s, Lookup(t))
       case Vacant => !Enabled(s, InsertItem(t))
       case ItemIn => !Enabled(s, InsertRow(t, 0))
       case _ => false
  }

  /** `t` is stalled, and would go on if `u` gave up. */
  ghost predicate Waits(s: State, t: nat, u: nat, lock: Digest -> int) {
    && t != u && Stalled(s, t) && Enabled(s, Abort(u, IdempotencyUnavailable))
    && !Stalled(Step(s, Abort(u, IdempotencyUnavailable), lock), t)
  }

  /** What `u` holds that `t` needs next: the row of its key, or its item ID. */
  ghost predicate HoldsFor(s: State, t: nat, u: nat) {
    && t in s.txs && u in s.txs && t != u
    && ((s.txs[t].phase.Swept? && s.txs[t].key in s.txs[u].deletes)
        || (s.txs[t].phase.Vacant? && s.txs[u].item && s.txs[u].value.id == s.txs[t].value.id))
  }

  // ----- Waiting is holding -----

  /** The row insert never waits: its own clean-up or lookup has settled that there is no row. */
  lemma InsertRowNeverWaits(s: State, t: nat, lock: Digest -> int)
    requires Inv(s, lock) && t in s.txs && s.txs[t].phase.ItemIn?
    ensures !Stalled(s, t)
  {
    assert Fits(s, s.txs[t]);
  }

  /** A stalled transaction is stalled by some other one that holds what it needs. */
  lemma StalledHasHolder(s: State, t: nat, lock: Digest -> int) returns (u: nat)
    requires Inv(s, lock) && Stalled(s, t)
    ensures HoldsFor(s, t, u)
  {
    assert Shape(s.txs[t]);
    if s.txs[t].phase.Swept? {
      u :| u in s.txs && u != t
           && (s.txs[t].key in s.txs[u].deletes || (s.txs[u].rowLock && s.txs[u].key == s.txs[t].key));
      assert Apart(s.txs[t], s.txs[u], lock) && Shape(s.txs[u]);
    } else if s.txs[t].phase.Vacant? {
      u :| u in s.txs && u != t && s.txs[u].item && s.txs[u].value.id == s.txs[t].value.id;
    } else {
      InsertRowNeverWaits(s, t, lock);
    }
  }

  lemma HolderStalls(s: State, t: nat, u: nat, lock: Digest -> int)
    requires Inv(s, lock) && HoldsFor(s, t, u)
    ensures Stalled(s, t) && !s.txs[u].phase.Ended?
  {
    assert Shape(s.txs[u]) && Fits(s, s.txs[u]) && Apart(s.txs[t], s.txs[u], lock);
  }

  /** Nothing is held twice. */
  lemma HolderIsUnique(s: State, t: nat, u: nat, v: nat, lock: Digest -> int)
    requires Inv(s, lock) && HoldsFor(s, t, u) && HoldsFor(s, t, v)
    ensures u == v
  {
    var a, b := s.txs[u], s.txs[v];
    assert u == v || Apart(a, b, lock);
  }

  /** Giving up leaves the others as they are and holds nothing more. */
  lemma AfterGivingUp(s: State, t: nat, u: nat, v: nat, lock: Digest -> int)
    requires Enabled(s, Abort(u, IdempotencyUnavailable)) && t != u
    ensures HoldsFor(Step(s, Abort(u, IdempotencyUnavailable), lock), t, v) <==> v != u && HoldsFor(s, t, v)
  {
  }

  /** A transaction waits for another exactly when that one holds what it needs next. */
  lemma WaitsIffHolds(s: State, t: nat, u: nat, lock: Digest -> int)
    requires Inv(s, lock)
    ensures Waits(s, t, u, lock) <==> HoldsFor(s, t, u)
  {
    if HoldsFor(s, t, u) {
      HolderStalls(s, t, u, lock);
      var r := Step(s, Abort(u, IdempotencyUnavailable), lock);
      if Stalled(r, t) {
        StepKeepsInv(s, Abort(u, IdempotencyUnavailable), lock);
        var v := StalledHasHolder(r, t, lock);
        AfterGivingUp(s, t, u, v, lock);
        HolderIsUnique(s, t, u, v, lock);
      }
    }
    if Waits(s, t, u, lock) {
      var v := StalledHasHolder(s, t, lock);
      if v != u { StillHeld(s, t, u, v, lock); }
    }
  }

  lemma StillHeld(s: State, t: nat, u: nat, v: nat, lock: Digest -> int)
    requires Inv(s, lock) && HoldsFor(s, t, v) && v != u && t != u && Enabled(s, Abort(u, IdempotencyUnavailable))
    ensures Stalled(Step(s, Abort(u, IdempotencyUnavailable), lock), t)
  {
    StepKeepsInv(s, Abort(u, IdempotencyUnavailable), lock);
    AfterGivingUp(s, t, u, v, lock);
    HolderStalls(Step(s, Abort(u, IdempotencyUnavailable), lock), t, v, lock);
  }

  // ----- Blocking each other -----

  ghost predicate BlockEachOther(s: State, t: nat, u: nat, lock: Digest -> int) {
    Waits(s, t, u, lock) && Waits(s, u, t, lock)
  }

  /**
   * The exact condition: two transactions block each other if and only if both
   * have cleaned up and not yet looked up, and each one's own row is among the
   * rows the other is deleting.
   */
  lemma BlockEachOtherIff(s: State, t: nat, u: nat, lock: Digest -> int)
    requires Inv(s, lock)
    ensures BlockEachOther(s, t, u, lock) <==>
            && t in s.txs && u in s.txs && t != u && s.txs[t].phase.Swept? && s.txs[u].phase.Swept?
            && s.txs[t].key in s.txs[u].deletes && s.txs[u].key in s.txs[t].deletes
  {
    WaitsIffHolds(s, t, u, lock);
    WaitsIffHolds(s, u, t, lock);
    if t in s.txs { assert Shape(s.txs[t]); }
    if u in s.txs { assert Shape(s.txs[u]); }
  }

  /** In a longer ring too everyone is at its lookup: who waits for a waiting transaction has just cleaned up. */
  lemma WaiterForWaiterIsSwept(s: State, t: nat, u: nat, v: nat, lock: Digest -> int)
    requires Inv(s, lock) && Waits(s, t, u, lock) && Waits(s, u, v, lock)
    ensures s.txs[t].phase.Swept?
  {
    WaitsIffHolds(s, t, u, lock);
    WaitsIffHolds(s, u, v, lock);
    assert Shape(s.txs[u]);
  }

  /** Nobody else can help: until one of the two gives up, every step leaves them blocking each other. */
  lemma BlockedStayBlocked(s: State, e: Event, t: nat, u: nat, lock: Digest -> int)
    requires Inv(s, lock) && Enabled(s, e) && BlockEachOther(s, t, u, lock)
    requires !(e.Abort? && (e.t == t || e.t == u))
    ensures BlockEachOther(Step(s, e, lock), t, u, lock)
  {
    BlockEachOtherIff(s, t, u, lock);
    BlockedDoNotMove(s, e, t, lock);
    BlockedDoNotMove(s, e, u, lock);
    StepKeepsInv(s, e, lock);
    BlockEachOtherIff(Step(s, e, lock), t, u, lock);
  }

  lemma BlockedDoNotMove(s: State, e: Event, t: nat, lock: Digest -> int)
    requires Enabled(s, e) && Stalled(s, t) && s.txs[t].phase.Swept? && !(e.Abort? && e.t == t)
    ensures t in Step(s, e, lock).txs && Step(s, e, lock).txs[t] == s.txs[t]
  {
  }

  /** Along every run, two transactions that block each other do so until one of them gives up. */
  lemma {:induction false} BlockedUntilOneGivesUp(
      states: seq<State>, events: seq<Event>, lock: Digest -> int, i: nat, j: nat, t: nat, u: nat)
    requires IsRun(states, events, lock) && i <= j < |states|
    requires BlockEachOther(states[i], t, u, lock)
    requires forall m :: i <= m < j ==> !(events[m].Abort? && (events[m].t == t || events[m].t == u))
    ensures BlockEachOther(states[j], t, u, lock)
    decreases j
  {
    if i == j {
    } else {
      BlockedUntilOneGivesUp(states, events, lock, i, j - 1, t, u);
      RunKeepsBlocked(states, events, lock, j - 1, t, u);
    }
  }

  lemma RunKeepsBlocked(states: seq<State>, events: seq<Event>, lock: Digest -> int, n: nat, t: nat, u: nat)
    requires IsRun(states, events, lock) && n < |events| && BlockEachOther(states[n], t, u, lock)
    requires !(events[n].Abort? && (events[n].t == t || events[n].t == u))
    ensures BlockEachOther(states[n + 1], t, u, lock)
  {
    assert Enabled(states[n], events[n]) && states[n + 1] == Step(states[n], events[n], lock) by {
      assert IsStep(states, events, lock, n);
    }
    assert Inv(states[n], lock) by { RunKeepsInv(states, events, lock, n); }
    BlockedStayBlocked(states[n], events[n], t, u, lock);
  }
}
