/** What holds along every run of the in-memory adapter. */
module MemoryRuns {
  import opened Items
  import opened MemorySteps
  import opened MemoryProtocol
  import opened AtomicMap

  ghost predicate IsRun(states: seq<State>, events: seq<Event>, bound: int) {
    && |states| == |events| + 1
    && states[0] == INIT
    && forall i :: 0 <= i < |events| ==> IsStep(states, events, bound, i)
  }

  ghost predicate IsStep(states: seq<State>, events: seq<Event>, bound: int, i: nat)
    requires i < |events| < |states|
  {
    Enabled(states[i], events[i]) && states[i + 1] == Step(states[i], events[i], bound)
  }

  /** Every state of every run satisfies the protocol invariant. */
  lemma {:induction false} RunKeepsInv(states: seq<State>, events: seq<Event>, bound: nat, n: nat)
    requires IsRun(states, events, bound) && n < |states|
    ensures Inv(states[n], bound)
  {
    if n == 0 {
      InitInv(bound);
    } else {
      RunKeepsInv(states, events, bound, n - 1);
      assert IsStep(states, events, bound, n - 1);
      StepKeepsInv(states[n - 1], events[n - 1], bound);
    }
  }

  // ----- Conservation of items -----

  ghost function PendingCallers(s: State): set<nat> {
    set c | c in s.callers && s.callers[c].Pending()
  }

  ghost function CandidateIds(s: State, cs: set<nat>): set<Uuid>
    requires cs <= s.callers.Keys
  {
    set c | c in cs :: s.callers[c].request.value.id
  }

  lemma {:induction false} CandidatesCount(s: State, cs: set<nat>)
    requires cs <= s.callers.Keys && forall c :: c in cs ==> Created(s, c)
    ensures |CandidateIds(s, cs)| == |cs|
    decreases |cs|
  {
    if cs == {} {
    } else {
      var c :| c in cs;
      CandidatesCount(s, cs - {c});
      var rest := CandidateIds(s, cs - {c});
      assert s.callers[c].request.value.id !in rest;
      assert CandidateIds(s, cs) == rest + {s.callers[c].request.value.id};
    }
  }

  lemma PendingAreNew(s: State)
    requires PhasesFit(s)
    ensures forall c :: c in PendingCallers(s) ==> Created(s, c)
    ensures (s.plain + s.keyed) !! CandidateIds(s, PendingCallers(s))
  {
    forall c | c in PendingCallers(s)
      ensures Created(s, c) && s.callers[c].request.value.id !in s.plain + s.keyed
    {
      assert PhaseFits(s, c);
    }
  }

  lemma PendingCoverTheRest(s: State)
    requires Accounted(s) && Provenance(s)
    requires forall c :: c in PendingCallers(s) ==> Created(s, c)
    ensures s.shared.items.Keys == s.plain + s.keyed + CandidateIds(s, PendingCallers(s))
  {
    forall id | id in s.shared.items && id !in s.plain && id !in s.keyed
      ensures id in CandidateIds(s, PendingCallers(s))
    {
      var c :| c in s.callers && s.callers[c].Pending() && s.callers[c].request.value.id == id;
      assert c in PendingCallers(s);
    }
  }

  lemma ItemsAreAccountedFor(s: State, bound: int)
    requires Inv(s, bound)
    ensures |s.shared.items| == |s.plain| + |s.keyed| + |PendingCallers(s)|
  {
    PendingAreNew(s);
    PendingCoverTheRest(s);
    CandidatesCount(s, PendingCallers(s));
    DisjointSizes(s.plain, s.keyed, CandidateIds(s, PendingCallers(s)));
    assert |s.shared.items| == |s.shared.items.Keys|;
  }

  lemma DisjointSizes<T>(a: set<T>, b: set<T>, c: set<T>)
    requires a !! b && (a + b) !! c
    ensures |a + b + c| == |a| + |b| + |c|
  {
  }

  /** The step is a plain create that goes through. */
  ghost predicate CreatesPlain(s: State, e: Event) {
    && e.Insert? && e.c in s.callers && s.callers[e.c].request.Plain?
    && InsertError(s.shared.items, s.callers[e.c].ctx, s.callers[e.c].request.value).None?
  }

  /** The successful plain creates among the first `n` events. */
  ghost function PlainCreates(states: seq<State>, events: seq<Event>, n: nat): nat
    requires n <= |events| <= |states|
  {
    if n == 0 then 0
    else PlainCreates(states, events, n - 1) + if CreatesPlain(states[n - 1], events[n - 1]) then 1 else 0
  }

  /** The commits among the first `n` events. */
  function Commits(events: seq<Event>, n: nat): nat
    requires n <= |events|
  {
    if n == 0 then 0 else Commits(events, n - 1) + if events[n - 1].Commit? then 1 else 0
  }

  lemma StepCounts(s: State, e: Event, bound: int)
    requires PhasesFit(s) && Accounted(s) && Enabled(s, e)
    ensures |Step(s, e, bound).plain| == |s.plain| + if CreatesPlain(s, e) then 1 else 0
    ensures |Step(s, e, bound).keyed| == |s.keyed| + if e.Commit? then 1 else 0
  {
    if e.Commit? {
      assert PhaseFits(s, e.c);
    } else if CreatesPlain(s, e) {
      assert s.callers[e.c].request.value.id !in s.plain;
    }
  }

  lemma {:induction false} HistoryCounts(states: seq<State>, events: seq<Event>, bound: nat, n: nat)
    requires IsRun(states, events, bound) && n <= |events|
    ensures |states[n].plain| == PlainCreates(states, events, n) && |states[n].keyed| == Commits(events, n)
  {
    if n == 0 {
    } else {
      HistoryCounts(states, events, bound, n - 1);
      RunCounts(states, events, bound, n - 1);
    }
  }

  lemma RunCounts(states: seq<State>, events: seq<Event>, bound: nat, n: nat)
    requires IsRun(states, events, bound) && n < |events|
    ensures |states[n + 1].plain| == |states[n].plain| + if CreatesPlain(states[n], events[n]) then 1 else 0
    ensures |states[n + 1].keyed| == |states[n].keyed| + if events[n].Commit? then 1 else 0
  {
    assert IsStep(states, events, bound, n);
    RunKeepsInv(states, events, bound, n);
    StepCounts(states[n], events[n], bound);
  }

  /** At every moment of every run: items = successful plain creates + commits + owners past their insert. */
  lemma ItemsAreConserved(states: seq<State>, events: seq<Event>, bound: nat, n: nat)
    requires IsRun(states, events, bound) && n <= |events|
    ensures |states[n].shared.items| ==
            PlainCreates(states, events, n) + Commits(events, n) + |PendingCallers(states[n])|
  {
    HistoryCounts(states, events, bound, n);
    RunKeepsInv(states, events, bound, n);
    ItemsAreAccountedFor(states[n], bound);
  }

  // ----- Refinement of an atomic map -----

  /** The atomic map's entry for a key: its record, or the owner past its insert. */
  ghost predicate HasEntry(s: State, k: Digest, entry: Entry) {
    HasRecord(s, k, entry) || exists c :: HasPending(s, c, k, entry)
  }

  ghost predicate HasRecord(s: State, k: Digest, entry: Entry) {
    && k in s.shared.records
    && s.shared.records[k].itemId in s.shared.items
    && entry == Entry(s.shared.records[k].fingerprint, s.shared.items[s.shared.records[k].itemId])
  }

  ghost predicate HasPending(s: State, c: nat, k: Digest, entry: Entry) {
    && c in s.callers
    && s.callers[c].Pending()
    && s.callers[c].request.key == k
    && entry == Entry(s.callers[c].request.fingerprint, s.callers[c].request.value)
  }

  /** The atomic map a state stands for. */
  ghost function Live(s: State): map<Digest, Entry> {
    map k | k in s.shared.records.Keys + s.shared.inflight && (exists entry :: HasEntry(s, k, entry)) ::
      var entry :| HasEntry(s, k, entry); entry
  }

  ghost predicate Tame(s: State) {
    && (forall k, x, y :: HasEntry(s, k, x) && HasEntry(s, k, y) ==> x == y)
    && (forall k, x :: HasEntry(s, k, x) ==> k in s.shared.records.Keys + s.shared.inflight)
  }

  lemma InvIsTame(s: State, bound: int)
    requires MarkersOwned(s) && Bounded(s, bound)
    ensures Tame(s)
  {
    forall k, x, y | HasEntry(s, k, x) && HasEntry(s, k, y) ensures x == y {
      EntryIsUnique(s, k, x, y, bound);
    }
    forall k, x | HasEntry(s, k, x) ensures k in s.shared.records.Keys + s.shared.inflight {
      if !HasRecord(s, k, x) {
        var c :| HasPending(s, c, k, x);
      }
    }
  }

  lemma EntryIsUnique(s: State, k: Digest, x: Entry, y: Entry, bound: int)
    requires MarkersOwned(s) && Bounded(s, bound) && HasEntry(s, k, x) && HasEntry(s, k, y)
    ensures x == y
  {
    if k !in s.shared.records {
      var c :| HasPending(s, c, k, x);
      var d :| HasPending(s, d, k, y);
      assert OwnerOf(s, c, k) && OwnerOf(s, d, k);
    }
  }

  lemma LiveHasEntries(s: State)
    requires Tame(s)
    ensures forall k, x :: HasEntry(s, k, x) <==> k in Live(s) && Live(s)[k] == x
  {
  }

  lemma LiveFromEntries(s: State, m: map<Digest, Entry>)
    requires Tame(s)
    requires forall k, x :: HasEntry(s, k, x) <==> k in m && m[k] == x
    ensures Live(s) == m
  {
    LiveHasEntries(s);
    forall k | k in Live(s) ensures k in m && m[k] == Live(s)[k] {
      assert HasEntry(s, k, Live(s)[k]);
    }
    forall k | k in m ensures k in Live(s) {
      assert HasEntry(s, k, m[k]);
    }
  }

  function Observe(s: State, e: Event, bound: int): Observation
    requires Enabled(s, e)
  {
    match e
    case Reserve(c) =>
      var request := s.callers[c].request;
      (match VerdictOf(s, c, bound)
       case Replay(item) => Replayed(request.key, Entry(request.fingerprint, item))
       case Refuse(error) =>
         if error.IdempotencyConflict? then Conflicted(request.key, request.fingerprint) else Declined(request.key)
       case Proceed => Nothing)
    case Insert(c) =>
      var request := s.callers[c].request;
      if request.Plain? then Nothing
      else if InsertError(s.shared.items, s.callers[c].ctx, request.value).Some? then Declined(request.key)
      else Made(request.key, Entry(request.fingerprint, request.value))
    case _ => Nothing
  }

  /** The keys whose records a step cleans up. */
  function Dropped(s: State, e: Event): set<Digest>
    requires Enabled(s, e)
  {
    if e.Reserve? then ExpiredKeys(s.shared.records, s.callers[e.c].phase.now) else {}
  }

  // How the entries of a key change, step by step.

  lemma EntriesAfterInsert(s: State, c: nat, k: Digest, x: Entry)
    requires Enabled(s, Insert(c)) && RecordsFit(s)
    ensures HasEntry(DidInsert(s, c), k, x) <==>
            HasEntry(s, k, x) || Observe(s, Insert(c), 0) == Made(k, x)
  {
    var t := DidInsert(s, c);
    assert k in s.shared.records ==> RecordFits(s, k, s.shared.records[k]);
    assert HasRecord(t, k, x) <==> HasRecord(s, k, x);
    forall d | d != c ensures HasPending(t, d, k, x) <==> HasPending(s, d, k, x) {}
    assert HasPending(t, c, k, x) <==> Observe(s, Insert(c), 0) == Made(k, x);
  }

  lemma EntriesAfterCommit(s: State, c: nat, now: int, k: Digest, x: Entry)
    requires Enabled(s, Commit(c, now))
    requires Created(s, c) && Provenance(s) && Tame(s)
    requires s.callers[c].request.key !in s.shared.records
    ensures HasEntry(DidCommit(s, c, now), k, x) <==> HasEntry(s, k, x)
  {
    var t := DidCommit(s, c, now);
    var request := s.callers[c].request;
    forall d | d != c ensures HasPending(t, d, k, x) <==> HasPending(s, d, k, x) {}
    assert !HasPending(t, c, k, x);
    if k == request.key {
      var own := Entry(request.fingerprint, request.value);
      assert HasPending(s, c, k, own);
      assert HasEntry(s, k, own);
      assert HasRecord(t, k, x) <==> x == own;
    } else {
      assert HasRecord(t, k, x) <==> HasRecord(s, k, x);
    }
  }

  lemma EntriesAfterReserve(s: State, c: nat, bound: int, k: Digest, x: Entry)
    requires Enabled(s, Reserve(c))
    requires forall d, y :: HasPending(s, d, k, y) ==> k !in s.shared.records
    ensures HasEntry(DidReserve(s, c, bound), k, x) <==> HasEntry(s, k, x) && k !in Dropped(s, Reserve(c))
  {
    var t := DidReserve(s, c, bound);
    assert HasRecord(t, k, x) <==> HasRecord(s, k, x) && k !in Dropped(s, Reserve(c));
    forall d ensures HasPending(t, d, k, x) <==> HasPending(s, d, k, x) {}
  }

  /** The remaining steps change neither records, nor items, nor who is pending. */
  lemma EntriesOtherwise(s: State, e: Event, bound: int, k: Digest, x: Entry)
    requires Enabled(s, e) && !e.Insert? && !e.Commit? && !e.Reserve?
    ensures HasEntry(Step(s, e, bound), k, x) <==> HasEntry(s, k, x)
  {
    var t := Step(s, e, bound);
    assert HasRecord(t, k, x) <==> HasRecord(s, k, x);
    forall d ensures HasPending(t, d, k, x) <==> HasPending(s, d, k, x) {}
  }

  lemma PendingHasNoRecord(s: State, c: nat, k: Digest, x: Entry, bound: int)
    requires Inv(s, bound) && HasPending(s, c, k, x)
    ensures k !in s.shared.records && Created(s, c)
  {
    assert OwnerOf(s, c, k);
    assert PhaseFits(s, c);
  }

  lemma MadeIsNew(s: State, c: nat, bound: int)
    requires Inv(s, bound) && Enabled(s, Insert(c)) && s.callers[c].request.Keyed?
    ensures forall x :: !HasEntry(s, s.callers[c].request.key, x)
  {
    var k := s.callers[c].request.key;
    assert OwnerOf(s, c, k);
    forall d, x | HasPending(s, d, k, x) ensures false {
      assert OwnerOf(s, d, k);
    }
  }

  lemma InsertRefines(s: State, c: nat, bound: int)
    requires Enabled(s, Insert(c)) && RecordsFit(s) && Tame(s) && Tame(DidInsert(s, c))
    requires s.callers[c].request.Keyed? ==> forall x :: !HasEntry(s, s.callers[c].request.key, x)
    ensures Atomic(Live(s), Live(DidInsert(s, c)), {}, Observe(s, Insert(c), bound))
  {
    var o := Observe(s, Insert(c), bound);
    LiveHasEntries(s);
    forall k, x { EntriesAfterInsert(s, c, k, x); }
    LiveFromEntries(DidInsert(s, c), if o.Made? then Live(s)[o.k := o.entry] else Live(s));
    assert Live(s) - {} == Live(s);
  }

  lemma CommitRefines(s: State, c: nat, now: int)
    requires Enabled(s, Commit(c, now)) && Tame(s) && Tame(DidCommit(s, c, now))
    requires Created(s, c) && Provenance(s) && s.callers[c].request.key !in s.shared.records
    ensures Live(DidCommit(s, c, now)) == Live(s)
  {
    LiveHasEntries(s);
    forall k, x { EntriesAfterCommit(s, c, now, k, x); }
    LiveFromEntries(DidCommit(s, c, now), Live(s));
  }

  lemma ReserveDrops(s: State, c: nat, bound: int)
    requires Enabled(s, Reserve(c)) && Tame(s) && Tame(DidReserve(s, c, bound))
    requires forall d, k, x :: HasPending(s, d, k, x) ==> k !in s.shared.records
    ensures Live(DidReserve(s, c, bound)) == Live(s) - Dropped(s, Reserve(c))
  {
    LiveHasEntries(s);
    forall k, x { EntriesAfterReserve(s, c, bound, k, x); }
    LiveFromEntries(DidReserve(s, c, bound), Live(s) - Dropped(s, Reserve(c)));
  }

  lemma RecordIsLive(s: State, k: Digest)
    requires Tame(s) && k in s.shared.records && s.shared.records[k].itemId in s.shared.items
    ensures k in Live(s)
    ensures Live(s)[k] == Entry(s.shared.records[k].fingerprint, s.shared.items[s.shared.records[k].itemId])
  {
    var entry := Entry(s.shared.records[k].fingerprint, s.shared.items[s.shared.records[k].itemId]);
    assert HasRecord(s, k, entry);
    assert HasEntry(s, k, entry);
    LiveHasEntries(s);
  }

  lemma KeptRecordHasItem(s: State, c: nat, bound: int)
    requires Enabled(s, Reserve(c)) && RecordsFit(s)
    ensures var t := DidReserve(s, c, bound);
            var key := s.callers[c].request.key;
            key in t.shared.records ==> t.shared.records[key].itemId in t.shared.items
  {
    var key := s.callers[c].request.key;
    if key in s.shared.records { assert RecordFits(s, key, s.shared.records[key]); }
  }

  lemma ReserveAnswers(s: State, c: nat, bound: int)
    requires Enabled(s, Reserve(c)) && RecordsFit(s) && Tame(DidReserve(s, c, bound))
    ensures var live := Live(DidReserve(s, c, bound)); Atomic(live, live, {}, Observe(s, Reserve(c), bound))
  {
    var t := DidReserve(s, c, bound);
    var key := s.callers[c].request.key;
    KeptRecordHasItem(s, c, bound);
    if key in t.shared.records { RecordIsLive(t, key); }
    ObservationFits(s, c, bound, Live(t));
  }

  /** What the reserving section answers, in terms of the entry its record stands for. */
  lemma ObservationFits(s: State, c: nat, bound: int, live: map<Digest, Entry>)
    requires Enabled(s, Reserve(c))
    requires var records := DidReserve(s, c, bound).shared.records;
             var key := s.callers[c].request.key;
             key in records ==>
               && records[key].itemId in s.shared.items && key in live
               && live[key] == Entry(records[key].fingerprint, s.shared.items[records[key].itemId])
    ensures Atomic(live, live, {}, Observe(s, Reserve(c), bound))
  {
    assert live - {} == live;
  }

  lemma OtherStepsRefine(s: State, e: Event, bound: int)
    requires Enabled(s, e) && !e.Insert? && !e.Commit? && !e.Reserve?
    requires Tame(s) && Tame(Step(s, e, bound))
    ensures Live(Step(s, e, bound)) == Live(s)
  {
    LiveHasEntries(s);
    forall k, x { EntriesOtherwise(s, e, bound, k, x); }
    LiveFromEntries(Step(s, e, bound), Live(s));
  }

  /** Every step of every caller is a step of the atomic map. */
  lemma StepRefinesAtomic(s: State, e: Event, bound: int)
    requires Inv(s, bound) && Enabled(s, e)
    ensures Atomic(Live(s), Live(Step(s, e, bound)), Dropped(s, e), Observe(s, e, bound))
  {
    if e.Reserve? {
      ReserveRefines(s, e, bound);
    } else if e.Insert? {
      InsertStepRefines(s, e, bound);
    } else {
      QuietStepRefines(s, e, bound);
    }
  }

  lemma StepIsTame(s: State, e: Event, bound: int)
    requires Inv(s, bound) && Enabled(s, e)
    ensures Tame(s) && Tame(Step(s, e, bound))
  {
    InvIsTame(s, bound);
    StepKeepsInv(s, e, bound);
    InvIsTame(Step(s, e, bound), bound);
  }

  lemma ReserveRefines(s: State, e: Event, bound: int)
    requires Inv(s, bound) && Enabled(s, e) && e.Reserve?
    ensures Atomic(Live(s), Live(Step(s, e, bound)), Dropped(s, e), Observe(s, e, bound))
  {
    StepIsTame(s, e, bound);
    forall d, k, x | HasPending(s, d, k, x) ensures k !in s.shared.records { PendingHasNoRecord(s, d, k, x, bound); }
    ReserveDrops(s, e.c, bound);
    ReserveAnswers(s, e.c, bound);
    assert Live(Step(s, e, bound)) - {} == Live(Step(s, e, bound));
  }

  lemma InsertStepRefines(s: State, e: Event, bound: int)
    requires Inv(s, bound) && Enabled(s, e) && e.Insert?
    ensures Atomic(Live(s), Live(Step(s, e, bound)), Dropped(s, e), Observe(s, e, bound))
  {
    StepIsTame(s, e, bound);
    if s.callers[e.c].request.Keyed? { MadeIsNew(s, e.c, bound); }
    InsertRefines(s, e.c, bound);
  }

  lemma QuietStepRefines(s: State, e: Event, bound: int)
    requires Inv(s, bound) && Enabled(s, e) && !e.Reserve? && !e.Insert?
    ensures Atomic(Live(s), Live(Step(s, e, bound)), Dropped(s, e), Observe(s, e, bound))
  {
    if e.Commit? { CommitIsQuiet(s, e, bound); } else { OthersAreQuiet(s, e, bound); }
    NothingIsAtomic(Live(s));
  }

  lemma CommitIsQuiet(s: State, e: Event, bound: int)
    requires Inv(s, bound) && Enabled(s, e) && e.Commit?
    ensures Live(Step(s, e, bound)) == Live(s)
  {
    assert Tame(s) && Tame(Step(s, e, bound)) by { StepIsTame(s, e, bound); }
    var request := s.callers[e.c].request;
    PendingHasNoRecord(s, e.c, request.key, Entry(request.fingerprint, request.value), bound);
    CommitRefines(s, e.c, e.now);
  }

  lemma OthersAreQuiet(s: State, e: Event, bound: int)
    requires Inv(s, bound) && Enabled(s, e) && !e.Reserve? && !e.Insert? && !e.Commit?
    ensures Live(Step(s, e, bound)) == Live(s)
  {
    StepIsTame(s, e, bound);
    OtherStepsRefine(s, e, bound);
  }

  // ----- Exactly one item per key and window -----

  /** The atomic maps the states of a run stand for. */
  ghost function Lives(states: seq<State>): (lives: seq<map<Digest, Entry>>)
    ensures |lives| == |states| && forall n :: 0 <= n < |states| ==> lives[n] == Live(states[n])
  {
    seq(|states|, n requires 0 <= n < |states| => Live(states[n]))
  }

  /** What the events of a run forget and show, event by event. */
  ghost predicate Traces(
      states: seq<State>, events: seq<Event>, bound: int, dropped: seq<set<Digest>>, observed: seq<Observation>)
  {
    && |states| == |events| + 1 && |dropped| == |observed| == |events|
    && forall n :: 0 <= n < |events| ==> TracedAt(states, events, bound, dropped, observed, n)
  }

  ghost predicate TracedAt(
      states: seq<State>, events: seq<Event>, bound: int, dropped: seq<set<Digest>>, observed: seq<Observation>, n: nat)
    requires n < |events| < |states| && |dropped| == |observed| == |events|
  {
    && Enabled(states[n], events[n])
    && dropped[n] == Dropped(states[n], events[n]) && observed[n] == Observe(states[n], events[n], bound)
  }

  /** Every run has its trace. */
  lemma TraceExists(states: seq<State>, events: seq<Event>, bound: int)
      returns (dropped: seq<set<Digest>>, observed: seq<Observation>)
    requires IsRun(states, events, bound)
    ensures Traces(states, events, bound, dropped, observed)
  {
    forall n | 0 <= n < |events| ensures Enabled(states[n], events[n]) {
      assert IsStep(states, events, bound, n);
    }
    dropped := seq(|events|, n requires 0 <= n < |events| && Enabled(states[n], events[n]) =>
      Dropped(states[n], events[n]));
    observed := seq(|events|, n requires 0 <= n < |events| && Enabled(states[n], events[n]) =>
      Observe(states[n], events[n], bound));
  }

  lemma RunStepIsAtomic(
      states: seq<State>, events: seq<Event>, bound: nat, dropped: seq<set<Digest>>, observed: seq<Observation>, n: nat)
    requires IsRun(states, events, bound) && Traces(states, events, bound, dropped, observed) && n < |events|
    ensures Atomic(Live(states[n]), Live(states[n + 1]), dropped[n], observed[n])
  {
    assert IsStep(states, events, bound, n) && TracedAt(states, events, bound, dropped, observed, n);
    RunKeepsInv(states, events, bound, n);
    StepRefinesAtomic(states[n], events[n], bound);
  }

  /** Every interleaving is a run of the atomic map. */
  lemma RunRefinesAtomic(
      states: seq<State>, events: seq<Event>, bound: nat, dropped: seq<set<Digest>>, observed: seq<Observation>)
    requires IsRun(states, events, bound) && Traces(states, events, bound, dropped, observed)
    ensures AtomicRun(Lives(states), dropped, observed)
  {
    forall n | 0 <= n < |events| ensures Atomic(Lives(states)[n], Lives(states)[n + 1], dropped[n], observed[n]) {
      RunStepIsAtomic(states, events, bound, dropped, observed, n);
    }
  }

  /**
   * From the insert of an item for a key until its record is cleaned up, the
   * key keeps that entry: no second item is made for it, every replay returns
   * that item, and only other fingerprints conflict.
   */
  lemma OneItemPerKey(
      states: seq<State>, events: seq<Event>, bound: nat, dropped: seq<set<Digest>>, observed: seq<Observation>,
      i: nat, j: nat, k: Digest, entry: Entry)
    requires IsRun(states, events, bound) && Traces(states, events, bound, dropped, observed) && i < j <= |events|
    requires observed[i] == Made(k, entry) && forall m :: i < m < j ==> k !in dropped[m]
    ensures k in Live(states[j]) && Live(states[j])[k] == entry
    ensures forall m :: i < m < j ==> AgreesWith(observed[m], k, entry)
  {
    RunRefinesAtomic(states, events, bound, dropped, observed);
    EntryLastsUntilDropped(Lives(states), dropped, observed, i, j, k, entry);
  }

  // ----- Retention -----

  /** A record leaves the table only in a clean-up whose clock is at its expiry or later. */
  lemma RecordsOutliveTheirExpiry(s: State, e: Event, bound: int, k: Digest)
    requires Inv(s, bound) && Enabled(s, e) && k in s.shared.records
    requires e.Reserve? ==> s.callers[e.c].phase.now < s.shared.records[k].expiresAt
    ensures k in Step(s, e, bound).shared.records
    ensures Step(s, e, bound).shared.records[k] == s.shared.records[k]
  {
    if e.Commit? {
      assert OwnerOf(s, e.c, s.callers[e.c].request.key);
    }
  }

  /** The table holds exactly the record a commit of `request` at `now` writes, and its item is stored. */
  ghost predicate Fresh(s: State, request: Request, now: int) {
    && request.Keyed?
    && request.key in s.shared.records
    && s.shared.records[request.key] == Record(request.fingerprint, request.value.id, now + RETENTION)
    && request.value.id in s.shared.items
    && s.shared.items[request.value.id] == request.value
  }

  lemma CommitIsFresh(s: State, c: nat, now: int, bound: int)
    requires Inv(s, bound) && Enabled(s, Commit(c, now))
    ensures Fresh(DidCommit(s, c, now), s.callers[c].request, now)
  {
    assert PhaseFits(s, c);
  }

  lemma StepKeepsFresh(s: State, e: Event, bound: int, request: Request, now: int)
    requires Inv(s, bound) && Enabled(s, e) && Fresh(s, request, now)
    requires e.Reserve? ==> s.callers[e.c].phase.now < now + RETENTION
    ensures Fresh(Step(s, e, bound), request, now)
  {
    RecordsOutliveTheirExpiry(s, e, bound, request.key);
  }

  lemma RunMakesFresh(states: seq<State>, events: seq<Event>, bound: nat, n: nat, c: nat, now: int)
    requires IsRun(states, events, bound) && n < |events| && events[n] == Commit(c, now) && c in states[n].callers
    ensures Fresh(states[n + 1], states[n].callers[c].request, now)
  {
    assert IsStep(states, events, bound, n);
    RunKeepsInv(states, events, bound, n);
    CommitIsFresh(states[n], c, now, bound);
  }

  lemma RunKeepsFresh(states: seq<State>, events: seq<Event>, bound: nat, n: nat, request: Request, now: int)
    requires IsRun(states, events, bound) && n < |events| && Fresh(states[n], request, now)
    requires events[n].Reserve? && Enabled(states[n], events[n]) ==>
               states[n].callers[events[n].c].phase.now < now + RETENTION
    ensures Fresh(states[n + 1], request, now)
  {
    assert IsStep(states, events, bound, n);
    RunKeepsInv(states, events, bound, n);
    StepKeepsFresh(states[n], events[n], bound, request, now);
  }

  /** Every clean-up strictly between steps i and j reads a clock below `limit`. */
  ghost predicate ClocksBelow(states: seq<State>, events: seq<Event>, i: nat, j: nat, limit: int)
    requires j <= |events| <= |states|
  {
    forall m :: i < m < j && events[m].Reserve? && Enabled(states[m], events[m]) ==>
      states[m].callers[events[m].c].phase.now < limit
  }

  lemma {:induction false} RecordStaysFresh(
      states: seq<State>, events: seq<Event>, bound: nat, i: nat, j: nat, c: nat, now: int)
    requires IsRun(states, events, bound) && i < j <= |events|
    requires events[i] == Commit(c, now) && c in states[i].callers
    requires ClocksBelow(states, events, i, j, now + RETENTION)
    ensures Fresh(states[j], states[i].callers[c].request, now)
    decreases j
  {
    if i + 1 < j {
      RecordStaysFresh(states, events, bound, i, j - 1, c, now);
      RunKeepsFresh(states, events, bound, j - 1, states[i].callers[c].request, now);
    } else {
      RunMakesFresh(states, events, bound, i, c, now);
    }
  }

  /**
   * A retry that reaches the adapter after the commit, while every clock used
   * since is within the retention of it, is answered with the committed item or
   * a conflict, depending on the fingerprint alone; it never creates.
   */
  lemma RetryReplaysOrConflicts(
      states: seq<State>, events: seq<Event>, bound: nat, i: nat, j: nat, c: nat, now: int, d: nat)
    requires IsRun(states, events, bound) && i < j < |events|
    requires events[i] == Commit(c, now) && Enabled(states[i], events[i])
    requires events[j] == Reserve(d) && Enabled(states[j], events[j])
    requires states[j].callers[d].request.key == states[i].callers[c].request.key
    requires states[j].callers[d].ctx.None?
    requires ClocksBelow(states, events, i, j + 1, now + RETENTION)
    ensures d in states[j + 1].callers && states[j + 1].shared.items == states[j].shared.items
    ensures states[j + 1].callers[d].phase == Returned(
              if states[j].callers[d].request.fingerprint == states[i].callers[c].request.fingerprint
              then Success(states[i].callers[c].request.value, true)
              else Failure(IdempotencyConflict))
  {
    assert IsStep(states, events, bound, j);
    RecordStaysFresh(states, events, bound, i, j, c, now);
  }

  // ----- Failed and cancelled calls -----

  /** A call that returns an error without having inserted leaves no marker, no item and no record. */
  lemma FailureLeavesNothing(s: State, c: nat, bound: int)
    requires Inv(s, bound) && c in s.callers && s.callers[c].phase.Returned? && !Created(s, c)
    ensures forall k :: k in s.shared.inflight ==> exists d :: d != c && OwnerOf(s, d, k)
    ensures forall id :: id in s.creator ==> s.creator[id] != c
    ensures forall k :: k in s.shared.records ==>
              s.shared.records[k].itemId in s.creator && s.creator[s.shared.records[k].itemId] != c
  {
    forall k | k in s.shared.inflight ensures exists d :: d != c && OwnerOf(s, d, k) {
      var d :| OwnerOf(s, d, k);
      assert d != c;
    }
    forall id | id in s.creator ensures s.creator[id] != c {
      assert Created(s, s.creator[id]);
    }
    forall k | k in s.shared.records ensures s.shared.records[k].itemId in s.creator {
      assert RecordFits(s, k, s.shared.records[k]);
    }
  }

  lemma CreatedEarlier(s: State, e: Event, bound: int, c: nat)
    requires PhasesFit(s) && Provenance(s) && Enabled(s, e) && !(e.Commit? && e.c == c)
    requires var t := Step(s, e, bound);
             Created(t, c) && t.callers[c].request.Keyed? && !t.callers[c].phase.Inserted?
    ensures Created(s, c) && s.callers[c].request.Keyed? && !s.callers[c].phase.Inserted?
  {
    if c in s.callers {
      assert PhaseFits(s, c);
    }
  }

  /** A keyed call that has inserted its item and returned, even with an error, has committed its record. */
  lemma {:induction false} ReturnedCallsCommitted(
      states: seq<State>, events: seq<Event>, bound: nat, n: nat, c: nat)
    requires IsRun(states, events, bound) && n < |states|
    requires Created(states[n], c) && states[n].callers[c].request.Keyed? && !states[n].callers[c].phase.Inserted?
    ensures exists m :: 0 <= m < n && events[m].Commit? && events[m].c == c
    decreases n
  {
    if n > 0 && !(events[n - 1].Commit? && events[n - 1].c == c) {
      RunCreatedEarlier(states, events, bound, n - 1, c);
      ReturnedCallsCommitted(states, events, bound, n - 1, c);
    }
  }

  lemma RunCreatedEarlier(states: seq<State>, events: seq<Event>, bound: nat, n: nat, c: nat)
    requires IsRun(states, events, bound) && n < |events| && !(events[n].Commit? && events[n].c == c)
    requires Created(states[n + 1], c)
    requires states[n + 1].callers[c].request.Keyed? && !states[n + 1].callers[c].phase.Inserted?
    ensures Created(states[n], c) && states[n].callers[c].request.Keyed? && !states[n].callers[c].phase.Inserted?
  {
    assert IsStep(states, events, bound, n);
    RunKeepsInv(states, events, bound, n);
    CreatedEarlier(states[n], events[n], bound, c);
  }

  // ----- Answers were decided at their observation -----

  /** What must have been observed for a caller to stand where it stands. */
  ghost function Claim(caller: Caller): Observation {
    if caller.request.Plain? then Nothing
    else
      var request := caller.request;
      match caller.phase
      case Inserted => Made(request.key, Entry(request.fingerprint, request.value))
      case Recorded => Made(request.key, Entry(request.fingerprint, request.value))
      case Returned(Success(item, false)) => Made(request.key, Entry(request.fingerprint, item))
      case Returned(Success(item, true)) => Replayed(request.key, Entry(request.fingerprint, item))
      case _ => Nothing
  }

  lemma ClaimsAreObserved(s: State, e: Event, bound: int, c: nat)
    requires Enabled(s, e)
    requires c in Step(s, e, bound).callers && Claim(Step(s, e, bound).callers[c]) != Nothing
    ensures (c in s.callers && Claim(s.callers[c]) == Claim(Step(s, e, bound).callers[c]))
            || (e.c == c && Observe(s, e, bound) == Claim(Step(s, e, bound).callers[c]))
  {
  }

  /** The caller is not there yet, or nothing has been decided for it. */
  ghost predicate Undecided(s: State, c: nat) {
    c in s.callers ==> Claim(s.callers[c]) == Nothing
  }

  /** Every successful keyed answer was the caller's own insert or replay, after any moment of indecision. */
  lemma {:induction false} SuccessWasObserved(
      states: seq<State>, events: seq<Event>, bound: nat, dropped: seq<set<Digest>>, observed: seq<Observation>,
      l: nat, n: nat, c: nat, claim: Observation)
    requires IsRun(states, events, bound) && Traces(states, events, bound, dropped, observed)
    requires l <= n < |states| && Undecided(states[l], c)
    requires c in states[n].callers && Claim(states[n].callers[c]) == claim != Nothing
    ensures exists m :: l <= m < n && events[m].c == c && observed[m] == claim
    decreases n
  {
    if l < n {
      RunClaims(states, events, bound, dropped, observed, n - 1, c);
      if !(events[n - 1].c == c && observed[n - 1] == claim) {
        SuccessWasObserved(states, events, bound, dropped, observed, l, n - 1, c, claim);
      }
    }
  }

  lemma RunClaims(
      states: seq<State>, events: seq<Event>, bound: nat, dropped: seq<set<Digest>>, observed: seq<Observation>,
      n: nat, c: nat)
    requires IsRun(states, events, bound) && Traces(states, events, bound, dropped, observed) && n < |events|
    requires c in states[n + 1].callers && Claim(states[n + 1].callers[c]) != Nothing
    ensures (c in states[n].callers && Claim(states[n].callers[c]) == Claim(states[n + 1].callers[c]))
            || (events[n].c == c && observed[n] == Claim(states[n + 1].callers[c]))
  {
    assert IsStep(states, events, bound, n) && TracedAt(states, events, bound, dropped, observed, n);
    ClaimsAreObserved(states[n], events[n], bound, c);
  }

  /**
   * What clients see: from the insert of an item for a key until its record is
   * cleaned up, every keyed call that was undecided at the insert and succeeds
   * returns that very item, to the fingerprint it was made for.
   */
  lemma ClientsGetTheItem(
      states: seq<State>, events: seq<Event>, bound: nat, dropped: seq<set<Digest>>, observed: seq<Observation>,
      i: nat, j: nat, k: Digest, entry: Entry, c: nat)
    requires IsRun(states, events, bound) && Traces(states, events, bound, dropped, observed) && i < j <= |events|
    requires observed[i] == Made(k, entry) && forall m :: i < m < j ==> k !in dropped[m]
    requires Undecided(states[i], c) && c in states[j].callers
    requires var caller := states[j].callers[c];
             && caller.request.Keyed? && caller.request.key == k
             && caller.phase.Returned? && caller.phase.response.Success?
    ensures states[j].callers[c].phase.response.item == entry.item
    ensures states[j].callers[c].request.fingerprint == entry.fingerprint
  {
    var claim := Claim(states[j].callers[c]);
    SuccessWasObserved(states, events, bound, dropped, observed, i, j, c, claim);
    var m :| i <= m < j && events[m].c == c && observed[m] == claim;
    OneItemPerKey(states, events, bound, dropped, observed, i, j, k, entry);
    assert m > i ==> AgreesWith(claim, k, entry);
  }
}
