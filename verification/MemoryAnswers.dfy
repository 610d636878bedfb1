/** What every call of the in-memory adapter is told, and that it is always told something. */
module MemoryAnswers {
  import opened Items
  import opened MemorySteps
  import opened MemoryProtocol
  import opened MemoryRuns
  import opened AtomicMap

  /** The keys whose records outlive a clean-up at `now`. */
  ghost function RetainedKeys(s: State, now: int): set<Digest> {
    set k | k in s.shared.records && now < s.shared.records[k].expiresAt
  }

  /** The answer a retained record gives. */
  ghost predicate RecordTells(s: State, caller: Caller, r: Response)
    requires caller.request.Keyed? && caller.request.key in s.shared.records
  {
    var record := s.shared.records[caller.request.key];
    if record.fingerprint != caller.request.fingerprint then r == Failure(IdempotencyConflict)
    else if caller.ctx == Some(Canceled) || caller.ctx == Some(DeadlineExceeded) then r == Failure(caller.ctx.value)
    else if caller.ctx.Some? then r == Failure(IdempotencyState)
    else record.itemId in s.shared.items && r == Success(s.shared.items[record.itemId], true)
  }

  /** The reserving section's answer: from the record, or for want of one because the key is busy or the table full. */
  ghost predicate ReserveTells(s: State, c: nat, bound: int, r: Response)
    requires Enabled(s, Reserve(c))
  {
    var caller := s.callers[c];
    var retained := RetainedKeys(s, caller.phase.now);
    if caller.request.key in retained then RecordTells(s, caller, r)
    else if caller.request.key in s.shared.inflight then r == Failure(IdempotencyInProgress)
    else |retained| + |s.shared.inflight| >= bound && r == Failure(IdempotencyUnavailable)
  }

  /** The event ends its caller's call with the answer `r`. */
  ghost predicate Tells(s: State, e: Event, bound: int, r: Response)
    requires Enabled(s, e)
  {
    match e
    case Arrive(_, _, _) => false
    case Cancel(_, _) => false
    case Begin(c, _) =>
      var caller := s.callers[c];
      && r.Failure?
      && if caller.ctx.Some? then caller.ctx == Some(r.error) else caller.request.refusal == Some(r.error)
    case Reserve(c) => ReserveTells(s, c, bound, r)
    case Insert(c) =>
      var caller := s.callers[c];
      && caller.request.Plain?
      && if caller.ctx.Some? then r == Failure(caller.ctx.value)
         else if caller.request.value.id in s.shared.items then r == Failure(Conflict)
         else r == Success(caller.request.value, false)
    case Clear(c) => r == Failure(s.callers[c].phase.error)
    case Commit(_, _) => false
    case Finish(c) =>
      var caller := s.callers[c];
      r == if caller.ctx.Some? then Failure(caller.ctx.value) else Success(caller.request.value, false)
  }

  lemma CleanedKeys(s: State, now: int)
    ensures Cleaned(s.shared.records, now).Keys == RetainedKeys(s, now)
    ensures |Cleaned(s.shared.records, now)| == |RetainedKeys(s, now)|
  {
    assert Cleaned(s.shared.records, now).Keys == RetainedKeys(s, now);
  }

  lemma ReserveAnswer(s: State, c: nat, bound: int, r: Response)
    requires RecordsFit(s) && Enabled(s, Reserve(c))
    ensures DidReserve(s, c, bound).callers[c].phase == PhaseAfter(VerdictOf(s, c, bound))
    ensures PhaseAfter(VerdictOf(s, c, bound)) == Returned(r) <==> ReserveTells(s, c, bound, r)
  {
    if s.callers[c].request.key in RetainedKeys(s, s.callers[c].phase.now) {
      RecordAnswer(s, c, bound, r);
    } else {
      NoRecordAnswer(s, c, bound, r);
    }
  }

  lemma NoRecordAnswer(s: State, c: nat, bound: int, r: Response)
    requires Enabled(s, Reserve(c)) && s.callers[c].request.key !in RetainedKeys(s, s.callers[c].phase.now)
    ensures PhaseAfter(VerdictOf(s, c, bound)) == Returned(r) <==> ReserveTells(s, c, bound, r)
  {
    CleanedKeys(s, s.callers[c].phase.now);
  }

  lemma RecordAnswer(s: State, c: nat, bound: int, r: Response)
    requires RecordsFit(s) && Enabled(s, Reserve(c))
    requires s.callers[c].request.key in RetainedKeys(s, s.callers[c].phase.now)
    ensures PhaseAfter(VerdictOf(s, c, bound)) == Returned(r) <==> RecordTells(s, s.callers[c], r)
  {
    var caller := s.callers[c];
    CleanedKeys(s, caller.phase.now);
    var record := s.shared.records[caller.request.key];
    assert RecordFits(s, caller.request.key, record);
    var cleaned := Cleaned(s.shared.records, caller.phase.now);
    assert caller.request.key in cleaned && cleaned[caller.request.key] == record;
  }

  /** A step ends an unfinished call with an answer exactly when it is the call's own step and tells that answer. */
  lemma StepAnswer(s: State, e: Event, bound: int, c: nat, r: Response)
    requires RecordsFit(s) && Enabled(s, e) && c in s.callers && !s.callers[c].phase.Returned?
    ensures c in Step(s, e, bound).callers
    ensures Step(s, e, bound).callers[c].phase == Returned(r) <==> e.c == c && Tells(s, e, bound, r)
  {
    if e.Reserve? {
      ReserveAnswer(s, e.c, bound, r);
    }
  }

  lemma RunAnswer(states: seq<State>, events: seq<Event>, bound: nat, n: nat, c: nat, r: Response)
    requires IsRun(states, events, bound) && n < |events| && c in states[n].callers
    requires !states[n].callers[c].phase.Returned?
    ensures Enabled(states[n], events[n]) && c in states[n + 1].callers
    ensures states[n + 1].callers[c].phase == Returned(r) <==>
            events[n].c == c && Tells(states[n], events[n], bound, r)
  {
    assert IsStep(states, events, bound, n);
    RunKeepsInv(states, events, bound, n);
    StepAnswer(states[n], events[n], bound, c, r);
  }

  // ----- Answers are given once -----

  /** Step `m` of the run tells caller `c`, whose call was open, the answer `r`. */
  ghost predicate ToldAt(states: seq<State>, events: seq<Event>, bound: int, m: nat, c: nat, r: Response) {
    && m < |events| < |states| && Enabled(states[m], events[m]) && events[m].c == c
    && c in states[m].callers && !states[m].callers[c].phase.Returned?
    && Tells(states[m], events[m], bound, r)
  }

  /** A caller that is there stays, with its request, and its answer does not change. */
  lemma {:induction false} CallsStay(states: seq<State>, events: seq<Event>, bound: nat, m: nat, n: nat, c: nat)
    requires IsRun(states, events, bound) && m <= n < |states| && c in states[m].callers
    ensures c in states[n].callers && states[n].callers[c].request == states[m].callers[c].request
    ensures states[m].callers[c].phase.Returned? ==> states[n].callers[c].phase == states[m].callers[c].phase
    decreases n
  {
    if m == n {
    } else {
      CallsStay(states, events, bound, m, n - 1, c);
      assert IsStep(states, events, bound, n - 1);
      CallStays(states[n - 1], events[n - 1], bound, c);
    }
  }

  lemma CallStays(s: State, e: Event, bound: int, c: nat)
    requires Enabled(s, e) && c in s.callers
    ensures c in Step(s, e, bound).callers && Step(s, e, bound).callers[c].request == s.callers[c].request
    ensures s.callers[c].phase.Returned? ==> Step(s, e, bound).callers[c].phase == s.callers[c].phase
    ensures PastInsert(s.callers[c]) ==> PastInsert(Step(s, e, bound).callers[c])
    ensures forall error :: Refused(s.callers[c], error) ==> Refused(Step(s, e, bound).callers[c], error)
  {
  }

  lemma {:induction false} AnswerWasTold(
      states: seq<State>, events: seq<Event>, bound: nat, n: nat, c: nat, r: Response)
    requires IsRun(states, events, bound) && n < |states|
    requires c in states[n].callers && states[n].callers[c].phase == Returned(r)
    ensures exists m: nat :: m < n && ToldAt(states, events, bound, m, c, r)
  {
    if n == 0 {
    } else {
      assert IsStep(states, events, bound, n - 1);
      if states[n - 1].callers[c].phase.Returned? {
        AnswerWasTold(states, events, bound, n - 1, c, r);
      } else {
        RunAnswer(states, events, bound, n - 1, c, r);
        assert ToldAt(states, events, bound, n - 1, c, r);
      }
    }
  }

  /** Along every run: a caller holds an answer exactly when some step before told it that answer. */
  lemma AnswersAreTold(states: seq<State>, events: seq<Event>, bound: nat, n: nat, c: nat, r: Response)
    requires IsRun(states, events, bound) && n < |states|
    ensures c in states[n].callers && states[n].callers[c].phase == Returned(r) <==>
            exists m: nat :: m < n && ToldAt(states, events, bound, m, c, r)
  {
    if c in states[n].callers && states[n].callers[c].phase == Returned(r) {
      AnswerWasTold(states, events, bound, n, c, r);
    }
    forall m: nat | m < n && ToldAt(states, events, bound, m, c, r)
      ensures c in states[n].callers && states[n].callers[c].phase == Returned(r)
    {
      RunAnswer(states, events, bound, m, c, r);
      CallsStay(states, events, bound, m + 1, n, c);
    }
  }

  // ----- Observations reach their callers -----

  /** The observation is about the call's own key and fingerprint. */
  ghost predicate IsAbout(o: Observation, request: Request) {
    && request.Keyed?
    && match o
       case Made(k, entry) => k == request.key && entry == Entry(request.fingerprint, request.value)
       case Replayed(k, entry) => k == request.key && entry.fingerprint == request.fingerprint
       case Conflicted(k, fingerprint) => k == request.key && fingerprint == request.fingerprint
       case _ => false
  }

  /** What the observation of its own step leaves a caller with. */
  ghost predicate Leaves(o: Observation, phase: Phase) {
    match o
    case Made(_, _) => phase == Inserted
    case Replayed(_, entry) => phase == Returned(Success(entry.item, true))
    case Conflicted(_, _) => phase == Returned(Failure(IdempotencyConflict))
    case _ => true
  }

  /**
   * Whatever a step observes about a key, its own caller is the one it concerns
   * and has it at once: a replay is answered with the observed item, a conflict
   * with the conflict error, and who made an item has it inserted.
   */
  lemma ObservedIsAnswered(
      states: seq<State>, events: seq<Event>, bound: nat, dropped: seq<set<Digest>>, observed: seq<Observation>, m: nat)
    requires IsRun(states, events, bound) && Traces(states, events, bound, dropped, observed) && m < |events|
    requires observed[m].Made? || observed[m].Replayed? || observed[m].Conflicted?
    ensures events[m].c in states[m].callers && IsAbout(observed[m], states[m].callers[events[m].c].request)
    ensures events[m].c in states[m + 1].callers && Leaves(observed[m], states[m + 1].callers[events[m].c].phase)
  {
    assert IsStep(states, events, bound, m) && TracedAt(states, events, bound, dropped, observed, m);
  }

  /** Who made an item and reaches the end of its call with a live context is told of that very item. */
  lemma MakerGetsItsItem(
      states: seq<State>, events: seq<Event>, bound: nat, dropped: seq<set<Digest>>, observed: seq<Observation>,
      i: nat, j: nat, k: Digest, entry: Entry)
    requires IsRun(states, events, bound) && Traces(states, events, bound, dropped, observed) && i < j < |events|
    requires observed[i] == Made(k, entry) && events[j] == Finish(events[i].c)
    ensures var c := events[i].c;
            && c in states[j].callers && c in states[j + 1].callers
            && states[j + 1].callers[c].phase ==
               Returned(if states[j].callers[c].ctx.Some? then Failure(states[j].callers[c].ctx.value)
                        else Success(entry.item, false))
  {
    ObservedIsAnswered(states, events, bound, dropped, observed, i);
    CallsStay(states, events, bound, i, j, events[i].c);
    assert IsStep(states, events, bound, j);
  }

  /** The insert failed with the error, and the call is on its way to say so or has said so. */
  ghost predicate Refused(caller: Caller, error: Error) {
    caller.request.Keyed? && (caller.phase == Rejected(error) || caller.phase == Returned(Failure(error)))
  }

  lemma {:induction false} RefusedStays(
      states: seq<State>, events: seq<Event>, bound: nat, i: nat, n: nat, c: nat, error: Error)
    requires IsRun(states, events, bound) && i <= n < |states|
    requires c in states[i].callers && Refused(states[i].callers[c], error)
    ensures c in states[n].callers && Refused(states[n].callers[c], error)
    decreases n
  {
    if i == n {
    } else {
      RefusedStays(states, events, bound, i, n - 1, c, error);
      assert IsStep(states, events, bound, n - 1);
      CallStays(states[n - 1], events[n - 1], bound, c);
    }
  }

  /** A keyed call whose insert failed answers, when it clears its marker, with the error of that insert. */
  lemma ClearTellsTheInsertError(
      states: seq<State>, events: seq<Event>, bound: nat, i: nat, j: nat, c: nat)
    requires IsRun(states, events, bound) && i < j < |events|
    requires events[i] == Insert(c) && events[j] == Clear(c)
    ensures c in states[i].callers && c in states[j + 1].callers
    ensures states[j + 1].callers[c].phase ==
            Returned(Failure(if states[i].callers[c].ctx.Some? then states[i].callers[c].ctx.value else Conflict))
  {
    assert IsStep(states, events, bound, i) && IsStep(states, events, bound, j);
    if states[i + 1].callers[c].phase.Rejected? {
      RefusedStays(states, events, bound, i + 1, j, c, states[i + 1].callers[c].phase.error);
    } else {
      InsertedIsNeverRejected(states, events, bound, i + 1, j, c);
    }
  }

  predicate PastInsert(caller: Caller) {
    caller.phase.Inserted? || caller.phase.Recorded? || caller.phase.Returned?
  }

  lemma {:induction false} InsertedIsNeverRejected(
      states: seq<State>, events: seq<Event>, bound: nat, i: nat, n: nat, c: nat)
    requires IsRun(states, events, bound) && i <= n < |states|
    requires c in states[i].callers && PastInsert(states[i].callers[c])
    ensures c in states[n].callers && PastInsert(states[n].callers[c])
    decreases n
  {
    if i == n {
    } else {
      InsertedIsNeverRejected(states, events, bound, i, n - 1, c);
      assert IsStep(states, events, bound, n - 1);
      CallStays(states[n - 1], events[n - 1], bound, c);
    }
  }

  // ----- No call waits for another -----

  /** A step the caller itself takes. */
  predicate IsOwn(e: Event, c: nat) {
    e.c == c && !e.Arrive? && !e.Cancel?
  }

  function OwnSteps(events: seq<Event>, c: nat, n: nat): nat
    requires n <= |events|
  {
    if n == 0 then 0 else OwnSteps(events, c, n - 1) + if IsOwn(events[n - 1], c) then 1 else 0
  }

  ghost predicate StepsFit(s: State, c: nat, steps: nat) {
    if c !in s.callers then steps == 0
    else
      match s.callers[c].phase
      case Entered => steps == 0
      case Clocked(_) => steps == 1
      case Reserved => steps == 2
      case Rejected(_) => steps == 3
      case Inserted => steps == 3
      case Recorded => steps == 4
      case Returned(_) => 1 <= steps <= 5
  }

  lemma {:induction false} RunStepsFit(states: seq<State>, events: seq<Event>, bound: nat, n: nat, c: nat)
    requires IsRun(states, events, bound) && n < |states|
    ensures StepsFit(states[n], c, OwnSteps(events, c, n))
  {
    if n == 0 {
    } else {
      RunStepsFit(states, events, bound, n - 1, c);
      assert IsStep(states, events, bound, n - 1);
    }
  }

  /** The caller's next own step, whatever the other callers do. */
  function NextStep(caller: Caller, c: nat): Event
    requires !caller.phase.Returned?
  {
    if caller.request.Plain? then Insert(c)
    else
      match caller.phase
      case Entered => Begin(c, 0)
      case Clocked(_) => Reserve(c)
      case Reserved => Insert(c)
      case Rejected(_) => Clear(c)
      case Inserted => Commit(c, 0)
      case Recorded => Finish(c)
  }

  /** In every state of every run each call has returned, after at most five own steps, or can take its next one. */
  lemma CallsNeverWait(states: seq<State>, events: seq<Event>, bound: nat, n: nat, c: nat)
    requires IsRun(states, events, bound) && n < |states| && c in states[n].callers
    ensures OwnSteps(events, c, n) <= 5
    ensures !states[n].callers[c].phase.Returned? ==>
              OwnSteps(events, c, n) < 5 && exists e :: IsOwn(e, c) && Enabled(states[n], e)
  {
    RunStepsFit(states, events, bound, n, c);
    RunKeepsInv(states, events, bound, n);
    assert PhaseFits(states[n], c);
    if !states[n].callers[c].phase.Returned? {
      assert IsOwn(NextStep(states[n].callers[c], c), c) && Enabled(states[n], NextStep(states[n].callers[c], c));
    }
  }
}
