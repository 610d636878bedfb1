/**
 * Any number of callers of the in-memory adapter, interleaved at the
 * boundaries of its critical sections.
 */
module MemoryProtocol {
  import opened Items
  import opened MemorySteps

  /**
   * A plain create, or a keyed one with its hashed key and fingerprint.
   * `refusal` is what the validation of the raw key, fingerprint and item says.
   */
  datatype Request =
    | Plain(value: Item)
    | Keyed(key: Digest, fingerprint: Digest, value: Item, refusal: Option<Error>)

  datatype Response = Success(item: Item, replayed: bool) | Failure(error: Error)

  /** How far a call has got. */
  datatype Phase =
    | Entered                    // nothing done
    | Clocked(now: int)          // entry checks passed, clock read, mutex not yet taken
    | Reserved                   // marker set, item not yet inserted
    | Rejected(error: Error)     // the insert failed, marker still set
    | Inserted                   // item inserted, record not yet written
    | Recorded                   // record written, marker gone
    | Returned(response: Response)

  datatype Caller = Caller(request: Request, ctx: Option<Error>, phase: Phase) {
    /** The caller holds the in-flight marker of its key. */
    predicate Owns() {
      request.Keyed? && (phase.Reserved? || phase.Rejected? || phase.Inserted?)
    }

    /** The caller has inserted its item and not yet written its record. */
    predicate Pending() {
      request.Keyed? && phase.Inserted?
    }
  }

  /**
   * `plain` and `keyed` remember which items plain creates inserted and which
   * had a record written; `creator` remembers who inserted an item. No step
   * reads them.
   */
  datatype State = State(
    shared: Shared,
    callers: map<nat, Caller>,
    plain: set<Uuid>,
    keyed: set<Uuid>,
    creator: map<Uuid, nat>)

  const INIT := State(Shared(map[], map[], {}), map[], {}, {}, map[])

  datatype Event =
    | Arrive(c: nat, request: Request, ctx: Option<Error>)
    | Cancel(c: nat, error: Error)
    | Begin(c: nat, now: int)
    | Reserve(c: nat)
    | Insert(c: nat)
    | Clear(c: nat)
    | Commit(c: nat, now: int)
    | Finish(c: nat)

  predicate Enabled(s: State, e: Event) {
    match e
    case Arrive(c, request, ctx) =>
      && c !in s.callers
      && (request.Keyed? && request.refusal.None? ==> request.value.id != NIL_UUID)
    case Cancel(c, error) =>
      c in s.callers && s.callers[c].ctx.None? && (error.Canceled? || error.DeadlineExceeded?)
    case Begin(c, now) => c in s.callers && s.callers[c].request.Keyed? && s.callers[c].phase.Entered?
    case Reserve(c) => c in s.callers && s.callers[c].request.Keyed? && s.callers[c].phase.Clocked?
    case Insert(c) =>
      && c in s.callers
      && if s.callers[c].request.Plain? then s.callers[c].phase.Entered? else s.callers[c].phase.Reserved?
    case Clear(c) => c in s.callers && s.callers[c].request.Keyed? && s.callers[c].phase.Rejected?
    case Commit(c, now) => c in s.callers && s.callers[c].Pending()
    case Finish(c) => c in s.callers && s.callers[c].request.Keyed? && s.callers[c].phase.Recorded?
  }

  function Moved(s: State, c: nat, phase: Phase): map<nat, Caller>
    requires c in s.callers
  {
    s.callers[c := s.callers[c].(phase := phase)]
  }

  function Began(s: State, c: nat, now: int): State
    requires Enabled(s, Begin(c, now))
  {
    var caller := s.callers[c];
    s.(callers := Moved(s, c,
      if caller.ctx.Some? then Returned(Failure(caller.ctx.value))
      else if caller.request.refusal.Some? then Returned(Failure(caller.request.refusal.value))
      else Clocked(now)))
  }

  function VerdictOf(s: State, c: nat, bound: int): Verdict
    requires Enabled(s, Reserve(c))
  {
    var caller := s.callers[c];
    Decide(s.shared.(records := Cleaned(s.shared.records, caller.phase.now)),
           caller.ctx, caller.request.key, caller.request.fingerprint, bound)
  }

  function PhaseAfter(verdict: Verdict): Phase {
    match verdict
    case Replay(item) => Returned(Success(item, true))
    case Refuse(error) => Returned(Failure(error))
    case Proceed => Reserved
  }

  function DidReserve(s: State, c: nat, bound: int): State
    requires Enabled(s, Reserve(c))
  {
    var caller := s.callers[c];
    s.(shared := AfterReserve(s.shared, caller.ctx, caller.request.key, caller.request.fingerprint,
                              caller.phase.now, bound),
       callers := Moved(s, c, PhaseAfter(VerdictOf(s, c, bound))))
  }

  function DidInsert(s: State, c: nat): State
    requires Enabled(s, Insert(c))
  {
    var caller := s.callers[c];
    var value := caller.request.value;
    var failure := InsertError(s.shared.items, caller.ctx, value);
    var shared := s.shared.(items := AfterInsert(s.shared.items, caller.ctx, value));
    if failure.Some? then
      s.(callers := Moved(s, c,
        if caller.request.Plain? then Returned(Failure(failure.value)) else Rejected(failure.value)))
    else if caller.request.Plain? then
      s.(shared := shared, plain := s.plain + {value.id}, creator := s.creator[value.id := c],
         callers := Moved(s, c, Returned(Success(value, false))))
    else
      s.(shared := shared, creator := s.creator[value.id := c], callers := Moved(s, c, Inserted))
  }

  function DidClear(s: State, c: nat): State
    requires Enabled(s, Clear(c))
  {
    s.(shared := AfterClear(s.shared, s.callers[c].request.key),
       callers := Moved(s, c, Returned(Failure(s.callers[c].phase.error))))
  }

  function DidCommit(s: State, c: nat, now: int): State
    requires Enabled(s, Commit(c, now))
  {
    var request := s.callers[c].request;
    s.(shared := AfterCommit(s.shared, request.key, request.fingerprint, request.value.id, now),
       keyed := s.keyed + {request.value.id},
       callers := Moved(s, c, Recorded))
  }

  function Finished(s: State, c: nat): State
    requires Enabled(s, Finish(c))
  {
    var caller := s.callers[c];
    s.(callers := Moved(s, c, Returned(
      if caller.ctx.Some? then Failure(caller.ctx.value) else Success(caller.request.value, false))))
  }

  function Step(s: State, e: Event, bound: int): State
    requires Enabled(s, e)
  {
    match e
    case Arrive(c, request, ctx) => s.(callers := s.callers[c := Caller(request, ctx, Entered)])
    case Cancel(c, error) => s.(callers := s.callers[c := s.callers[c].(ctx := Some(error))])
    case Begin(c, now) => Began(s, c, now)
    case Reserve(c) => DidReserve(s, c, bound)
    case Insert(c) => DidInsert(s, c)
    case Clear(c) => DidClear(s, c)
    case Commit(c, now) => DidCommit(s, c, now)
    case Finish(c) => Finished(s, c)
  }

  // ----- What every reachable state keeps -----

  /** Every marker belongs to exactly one caller, and only owners have markers. */
  ghost predicate MarkersOwned(s: State) {
    && (forall k :: k in s.shared.inflight ==> exists c :: OwnerOf(s, c, k))
    && (forall c :: c in s.callers && s.callers[c].Owns() ==> s.callers[c].request.key in s.shared.inflight)
    && (forall c, d, k :: OwnerOf(s, c, k) && OwnerOf(s, d, k) ==> c == d)
  }

  ghost predicate OwnerOf(s: State, c: nat, k: Digest) {
    c in s.callers && s.callers[c].Owns() && s.callers[c].request.key == k
  }

  /** Completed and in-flight keys are apart and together within the bound. */
  ghost predicate Bounded(s: State, bound: int) {
    && s.shared.records.Keys !! s.shared.inflight
    && |s.shared.records| + |s.shared.inflight| <= bound
  }

  /** Whether the caller's candidate item is in the store by its own hand. */
  ghost predicate Created(s: State, c: nat) {
    && c in s.callers
    && s.callers[c].request.value.id in s.creator
    && s.creator[s.callers[c].request.value.id] == c
  }

  /** Every item has one creator, who offered exactly that item. */
  ghost predicate Provenance(s: State) {
    && s.creator.Keys == s.shared.items.Keys
    && (forall id :: id in s.creator ==>
          && Created(s, s.creator[id])
          && s.callers[s.creator[id]].request.value == s.shared.items[id]
          && s.shared.items[id].id == id)
  }

  /** How far a caller has got decides whether its item is stored and recorded. */
  ghost predicate PhaseFits(s: State, c: nat)
    requires c in s.callers
  {
    var caller := s.callers[c];
    var id := caller.request.value.id;
    if caller.request.Plain? then
      match caller.phase
      case Entered => !Created(s, c)
      case Returned(Success(item, replayed)) =>
        Created(s, c) && item == caller.request.value && !replayed && id in s.plain
      case Returned(Failure(_)) => !Created(s, c)
      case _ => false
    else
      match caller.phase
      case Entered => !Created(s, c)
      case Clocked(_) => !Created(s, c)
      case Reserved => !Created(s, c)
      case Rejected(_) => !Created(s, c)
      case Inserted => Created(s, c) && id !in s.plain && id !in s.keyed
      case Recorded => Created(s, c) && id in s.keyed
      case Returned(Success(item, false)) => Created(s, c) && id in s.keyed && item == caller.request.value
      case Returned(Success(item, true)) => !Created(s, c)
      case Returned(Failure(_)) => Created(s, c) ==> id in s.keyed
  }

  ghost predicate PhasesFit(s: State) {
    forall c :: c in s.callers ==> PhaseFits(s, c)
  }

  /** A record names an item its own caller created under that key and fingerprint. */
  ghost predicate RecordsFit(s: State) {
    forall k :: k in s.shared.records ==> RecordFits(s, k, s.shared.records[k])
  }

  ghost predicate RecordFits(s: State, k: Digest, record: Record) {
    && record.itemId in s.shared.items
    && record.itemId in s.creator
    && s.creator[record.itemId] in s.callers
    && record.itemId in s.keyed
    && var request := s.callers[s.creator[record.itemId]].request;
       request.Keyed? && request.key == k && request.fingerprint == record.fingerprint
  }

  /** Stored items are those of plain creates, recorded ones, and pending ones. */
  ghost predicate Accounted(s: State) {
    && s.plain !! s.keyed
    && s.plain + s.keyed <= s.shared.items.Keys
    && (forall id :: id in s.plain && id in s.creator && s.creator[id] in s.callers ==>
          s.callers[s.creator[id]].request.Plain?)
    && (forall id :: id in s.shared.items && id !in s.plain && id !in s.keyed ==>
          exists c :: c in s.callers && s.callers[c].Pending() && s.callers[c].request.value.id == id)
  }

  ghost predicate Inv(s: State, bound: int) {
    && MarkersOwned(s)
    && Bounded(s, bound)
    && Provenance(s)
    && PhasesFit(s)
    && RecordsFit(s)
    && Accounted(s)
  }

  lemma InitInv(bound: nat)
    ensures Inv(INIT, bound)
  {
  }

  // ----- Steps that only move one caller along -----

  /** Only caller `c` changed, and not its request. */
  ghost predicate OnlyMoved(s: State, t: State, c: nat) {
    && c in s.callers
    && c in t.callers
    && t.callers[c].request == s.callers[c].request
    && t.callers == s.callers[c := t.callers[c]]
  }

  ghost predicate SameHistory(s: State, t: State) {
    t.plain == s.plain && t.keyed == s.keyed && t.creator == s.creator && t.shared.items == s.shared.items
  }

  lemma MovedMarkers(s: State, t: State, c: nat)
    requires MarkersOwned(s) && OnlyMoved(s, t, c)
    requires t.shared.inflight == s.shared.inflight && t.callers[c].Owns() == s.callers[c].Owns()
    ensures MarkersOwned(t)
  {
    assert forall d, k :: OwnerOf(t, d, k) <==> OwnerOf(s, d, k);
  }

  lemma MovedProvenance(s: State, t: State, c: nat)
    requires Provenance(s) && OnlyMoved(s, t, c) && SameHistory(s, t)
    ensures Provenance(t)
    ensures forall d :: d in s.callers ==> (Created(t, d) <==> Created(s, d))
  {
  }

  lemma MovedPhases(s: State, t: State, c: nat)
    requires PhasesFit(s) && OnlyMoved(s, t, c) && SameHistory(s, t) && PhaseFits(t, c)
    ensures PhasesFit(t)
  {
    forall d | d in t.callers ensures PhaseFits(t, d) {
      if d != c { assert PhaseFits(s, d); }
    }
  }

  lemma MovedRecords(s: State, t: State, c: nat)
    requires RecordsFit(s) && OnlyMoved(s, t, c) && SameHistory(s, t)
    requires forall k :: k in t.shared.records ==> k in s.shared.records && t.shared.records[k] == s.shared.records[k]
    ensures RecordsFit(t)
  {
    forall k | k in t.shared.records ensures RecordFits(t, k, t.shared.records[k]) {
      assert RecordFits(s, k, s.shared.records[k]);
    }
  }

  lemma MovedAccounts(s: State, t: State, c: nat)
    requires Accounted(s) && OnlyMoved(s, t, c) && SameHistory(s, t)
    requires s.callers[c].Pending() ==> t.callers[c].Pending()
    ensures Accounted(t)
  {
    forall id | id in t.shared.items && id !in t.plain && id !in t.keyed
      ensures exists d :: d in t.callers && t.callers[d].Pending() && t.callers[d].request.value.id == id
    {
      var d :| d in s.callers && s.callers[d].Pending() && s.callers[d].request.value.id == id;
      assert t.callers[d].Pending();
    }
  }

  /** Begin, Finish, Cancel and a refused insert touch nothing shared. */
  lemma QuietStepKeepsInv(s: State, t: State, c: nat, bound: int)
    requires Inv(s, bound) && OnlyMoved(s, t, c) && SameHistory(s, t) && t.shared == s.shared
    requires t.callers[c].Owns() == s.callers[c].Owns()
    requires s.callers[c].Pending() ==> t.callers[c].Pending()
    requires PhaseFits(t, c)
    ensures Inv(t, bound)
  {
    MovedMarkers(s, t, c);
    MovedProvenance(s, t, c);
    MovedPhases(s, t, c);
    MovedRecords(s, t, c);
    MovedAccounts(s, t, c);
  }

  lemma ArriveKeepsInv(s: State, e: Event, bound: int)
    requires Inv(s, bound) && Enabled(s, e) && e.Arrive?
    ensures Inv(Step(s, e, bound), bound)
  {
    var t := Step(s, e, bound);
    ArriveKeepsMarkers(s, t, e);
    ArriveKeepsHistory(s, t, e);
    ArriveKeepsPhases(s, t, e);
  }

  lemma ArriveKeepsMarkers(s: State, t: State, e: Event)
    requires MarkersOwned(s) && Enabled(s, e) && e.Arrive?
    requires t == s.(callers := s.callers[e.c := Caller(e.request, e.ctx, Entered)])
    ensures MarkersOwned(t)
  {
    assert forall k, c :: OwnerOf(t, c, k) <==> OwnerOf(s, c, k);
  }

  lemma ArriveKeepsHistory(s: State, t: State, e: Event)
    requires Provenance(s) && RecordsFit(s) && Accounted(s) && Enabled(s, e) && e.Arrive?
    requires t == s.(callers := s.callers[e.c := Caller(e.request, e.ctx, Entered)])
    ensures Provenance(t) && RecordsFit(t) && Accounted(t)
    ensures !Created(t, e.c)
  {
    assert forall k :: k in t.shared.records ==> RecordFits(s, k, s.shared.records[k]);
    forall id | id in t.shared.items && id !in t.plain && id !in t.keyed
      ensures exists d :: d in t.callers && t.callers[d].Pending() && t.callers[d].request.value.id == id
    {
      var d :| d in s.callers && s.callers[d].Pending() && s.callers[d].request.value.id == id;
      assert t.callers[d].Pending();
    }
  }

  lemma ArriveKeepsPhases(s: State, t: State, e: Event)
    requires PhasesFit(s) && Enabled(s, e) && e.Arrive?
    requires t == s.(callers := s.callers[e.c := Caller(e.request, e.ctx, Entered)])
    requires !Created(t, e.c)
    ensures PhasesFit(t)
  {
    forall c | c in t.callers ensures PhaseFits(t, c) {
      if c != e.c { assert PhaseFits(s, c); }
    }
  }

  lemma BeginKeepsInv(s: State, c: nat, now: int, bound: int)
    requires Inv(s, bound) && Enabled(s, Begin(c, now))
    ensures Inv(Began(s, c, now), bound)
  {
    var t := Began(s, c, now);
    assert PhaseFits(s, c);
    MovedProvenance(s, t, c);
    assert PhaseFits(t, c);
    QuietStepKeepsInv(s, t, c, bound);
  }

  lemma CancelKeepsInv(s: State, c: nat, error: Error, bound: int)
    requires Inv(s, bound) && Enabled(s, Cancel(c, error))
    ensures Inv(Step(s, Cancel(c, error), bound), bound)
  {
    var t := Step(s, Cancel(c, error), bound);
    assert PhaseFits(s, c);
    MovedProvenance(s, t, c);
    assert PhaseFits(t, c);
    QuietStepKeepsInv(s, t, c, bound);
  }

  lemma FinishKeepsInv(s: State, c: nat, bound: int)
    requires Inv(s, bound) && Enabled(s, Finish(c))
    ensures Inv(Finished(s, c), bound)
  {
    var t := Finished(s, c);
    assert PhaseFits(s, c);
    MovedProvenance(s, t, c);
    assert PhaseFits(t, c);
    QuietStepKeepsInv(s, t, c, bound);
  }

  // ----- Reserve -----

  lemma CleanedIsSmaller(records: map<Digest, Record>, now: int)
    ensures Cleaned(records, now).Keys <= records.Keys
    ensures |Cleaned(records, now)| <= |records|
  {
    SubsetSize(Cleaned(records, now).Keys, records.Keys);
  }

  /** The slot check counts completed and in-flight keys, so a reservation never exceeds the bound. */
  lemma ReserveStaysWithinBound(
      s: Shared, ctx: Option<Error>, key: Digest, fingerprint: Digest, now: int, bound: int)
    requires s.records.Keys !! s.inflight && |s.records| + |s.inflight| <= bound
    ensures var t := AfterReserve(s, ctx, key, fingerprint, now, bound);
            t.records.Keys !! t.inflight && |t.records| + |t.inflight| <= bound
  {
    CleanedIsSmaller(s.records, now);
    var t := AfterReserve(s, ctx, key, fingerprint, now, bound);
    if t.inflight != s.inflight {
      assert key !in s.inflight && key !in t.records;
      assert |t.inflight| == |s.inflight| + 1;
    }
  }

  lemma ReserveKeepsBounded(s: State, c: nat, bound: int)
    requires Bounded(s, bound) && Enabled(s, Reserve(c))
    ensures Bounded(DidReserve(s, c, bound), bound)
  {
    var caller := s.callers[c];
    ReserveStaysWithinBound(
      s.shared, caller.ctx, caller.request.key, caller.request.fingerprint, caller.phase.now, bound);
  }

  lemma ReserveKeepsMarkers(s: State, c: nat, bound: int)
    requires MarkersOwned(s) && Enabled(s, Reserve(c))
    ensures MarkersOwned(DidReserve(s, c, bound))
  {
    var t := DidReserve(s, c, bound);
    var key := s.callers[c].request.key;
    if VerdictOf(s, c, bound).Proceed? {
      assert forall d, k :: OwnerOf(t, d, k) <==> (OwnerOf(s, d, k) || (d == c && k == key));
      assert OwnerOf(t, c, key);
    } else {
      MovedMarkers(s, t, c);
    }
  }

  lemma ReserveKeepsInv(s: State, c: nat, bound: int)
    requires Inv(s, bound) && Enabled(s, Reserve(c))
    ensures Inv(DidReserve(s, c, bound), bound)
  {
    var t := DidReserve(s, c, bound);
    assert PhaseFits(s, c);
    ReserveKeepsBounded(s, c, bound);
    ReserveKeepsMarkers(s, c, bound);
    MovedProvenance(s, t, c);
    assert PhaseFits(t, c);
    MovedPhases(s, t, c);
    MovedRecords(s, t, c);
    MovedAccounts(s, t, c);
  }

  // ----- Insert -----

  lemma InsertKeepsProvenance(s: State, c: nat)
    requires Provenance(s) && Enabled(s, Insert(c))
    ensures Provenance(DidInsert(s, c))
    ensures forall d :: d in s.callers && d != c ==> (Created(DidInsert(s, c), d) <==> Created(s, d))
  {
  }

  lemma InsertKeepsPhases(s: State, c: nat)
    requires Provenance(s) && PhasesFit(s) && Accounted(s) && Enabled(s, Insert(c))
    requires InsertError(s.shared.items, s.callers[c].ctx, s.callers[c].request.value).None?
    ensures PhasesFit(DidInsert(s, c))
  {
    var t := DidInsert(s, c);
    InsertKeepsProvenance(s, c);
    forall d | d in t.callers ensures PhaseFits(t, d) {
      assert PhaseFits(s, d);
    }
  }

  lemma InsertKeepsAccounts(s: State, c: nat)
    requires Provenance(s) && Accounted(s) && Enabled(s, Insert(c))
    requires InsertError(s.shared.items, s.callers[c].ctx, s.callers[c].request.value).None?
    ensures Accounted(DidInsert(s, c))
  {
    var t := DidInsert(s, c);
    forall id | id in t.shared.items && id !in t.plain && id !in t.keyed
      ensures exists d :: d in t.callers && t.callers[d].Pending() && t.callers[d].request.value.id == id
    {
      if id == s.callers[c].request.value.id {
        assert t.callers[c].Pending();
      } else {
        var d :| d in s.callers && s.callers[d].Pending() && s.callers[d].request.value.id == id;
        assert t.callers[d].Pending();
      }
    }
  }

  lemma InsertKeepsRecords(s: State, c: nat)
    requires Provenance(s) && RecordsFit(s) && Enabled(s, Insert(c))
    ensures RecordsFit(DidInsert(s, c))
  {
    var t := DidInsert(s, c);
    forall k | k in t.shared.records ensures RecordFits(t, k, t.shared.records[k]) {
      assert RecordFits(s, k, s.shared.records[k]);
    }
  }

  lemma InsertKeepsInv(s: State, c: nat, bound: int)
    requires Inv(s, bound) && Enabled(s, Insert(c))
    ensures Inv(DidInsert(s, c), bound)
  {
    var t := DidInsert(s, c);
    MovedMarkers(s, t, c);
    assert PhaseFits(s, c);
    if InsertError(s.shared.items, s.callers[c].ctx, s.callers[c].request.value).None? {
      InsertKeepsProvenance(s, c);
      InsertKeepsPhases(s, c);
      InsertKeepsAccounts(s, c);
      InsertKeepsRecords(s, c);
    } else {
      MovedProvenance(s, t, c);
      assert PhaseFits(t, c);
      QuietStepKeepsInv(s, t, c, bound);
    }
  }

  // ----- Clear and commit: the marker goes -----

  lemma ReleaseKeepsMarkers(s: State, t: State, c: nat)
    requires MarkersOwned(s) && OnlyMoved(s, t, c) && s.callers[c].Owns() && !t.callers[c].Owns()
    requires t.shared.inflight == s.shared.inflight - {s.callers[c].request.key}
    ensures MarkersOwned(t)
  {
    var key := s.callers[c].request.key;
    assert OwnerOf(s, c, key);
    assert forall d, k :: OwnerOf(t, d, k) <==> (OwnerOf(s, d, k) && d != c);
    forall k | k in t.shared.inflight ensures exists d :: OwnerOf(t, d, k) {
      var d :| OwnerOf(s, d, k);
      assert OwnerOf(t, d, k);
    }
    forall d | d in t.callers && t.callers[d].Owns() ensures t.callers[d].request.key in t.shared.inflight {
      assert OwnerOf(s, d, t.callers[d].request.key);
    }
  }

  lemma ClearKeepsInv(s: State, c: nat, bound: int)
    requires Inv(s, bound) && Enabled(s, Clear(c))
    ensures Inv(DidClear(s, c), bound)
  {
    var t := DidClear(s, c);
    assert PhaseFits(s, c);
    ReleaseKeepsMarkers(s, t, c);
    SubsetSize(t.shared.inflight, s.shared.inflight);
    MovedProvenance(s, t, c);
    assert PhaseFits(t, c);
    MovedPhases(s, t, c);
    MovedRecords(s, t, c);
    MovedAccounts(s, t, c);
  }

  lemma CommitKeepsBounded(s: State, c: nat, now: int, bound: int)
    requires MarkersOwned(s) && Bounded(s, bound) && Enabled(s, Commit(c, now))
    ensures Bounded(DidCommit(s, c, now), bound)
  {
    var key := s.callers[c].request.key;
    var t := DidCommit(s, c, now);
    assert key in s.shared.inflight;
    assert t.shared.records.Keys == s.shared.records.Keys + {key};
  }

  lemma CommitKeepsPhases(s: State, c: nat, now: int)
    requires PhasesFit(s) && Enabled(s, Commit(c, now))
    ensures PhasesFit(DidCommit(s, c, now))
  {
    var t := DidCommit(s, c, now);
    assert PhaseFits(s, c);
    forall d | d in t.callers ensures PhaseFits(t, d) {
      assert PhaseFits(s, d);
      assert Created(t, d) <==> Created(s, d);
    }
  }

  lemma CommitKeepsRecords(s: State, c: nat, now: int)
    requires Provenance(s) && PhasesFit(s) && RecordsFit(s) && Enabled(s, Commit(c, now))
    ensures RecordsFit(DidCommit(s, c, now))
  {
    var t := DidCommit(s, c, now);
    assert PhaseFits(s, c);
    forall k | k in t.shared.records ensures RecordFits(t, k, t.shared.records[k]) {
      if k != s.callers[c].request.key { assert RecordFits(s, k, s.shared.records[k]); }
    }
  }

  lemma CommitKeepsAccounts(s: State, c: nat, now: int)
    requires Provenance(s) && PhasesFit(s) && Accounted(s) && Enabled(s, Commit(c, now))
    ensures Accounted(DidCommit(s, c, now))
  {
    var t := DidCommit(s, c, now);
    assert PhaseFits(s, c);
    forall id | id in t.shared.items && id !in t.plain && id !in t.keyed
      ensures exists d :: d in t.callers && t.callers[d].Pending() && t.callers[d].request.value.id == id
    {
      var d :| d in s.callers && s.callers[d].Pending() && s.callers[d].request.value.id == id;
      assert t.callers[d].Pending();
    }
  }

  lemma CommitKeepsInv(s: State, c: nat, now: int, bound: int)
    requires Inv(s, bound) && Enabled(s, Commit(c, now))
    ensures Inv(DidCommit(s, c, now), bound)
  {
    var t := DidCommit(s, c, now);
    ReleaseKeepsMarkers(s, t, c);
    CommitKeepsBounded(s, c, now, bound);
    CommitKeepsPhases(s, c, now);
    MovedProvenance(s, t.(keyed := s.keyed), c);
    CommitKeepsRecords(s, c, now);
    CommitKeepsAccounts(s, c, now);
  }

  /** Whatever step any caller takes, the invariant survives it. */
  lemma StepKeepsInv(s: State, e: Event, bound: int)
    requires Inv(s, bound) && Enabled(s, e)
    ensures Inv(Step(s, e, bound), bound)
  {
    match e
    case Arrive(_, _, _) => ArriveKeepsInv(s, e, bound);
    case Cancel(c, error) => CancelKeepsInv(s, c, error, bound);
    case Begin(c, now) => BeginKeepsInv(s, c, now, bound);
    case Reserve(c) => ReserveKeepsInv(s, c, bound);
    case Insert(c) => InsertKeepsInv(s, c, bound);
    case Clear(c) => ClearKeepsInv(s, c, bound);
    case Commit(c, now) => CommitKeepsInv(s, c, now, bound);
    case Finish(c) => FinishKeepsInv(s, c, bound);
  }
}
