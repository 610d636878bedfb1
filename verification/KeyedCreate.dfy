/** The service's keyed create: from the client's input and key to the adapters and back. */
module KeyedCreate {
  import opened Items
  import opened MemorySteps
  import opened MemoryStore
  import opened Fingerprint
  import opened Trimming
  import opened Lexicographic
  import MemoryProtocol
  import MemoryRuns
  import PostgresProtocol
  import PostgresRuns
  import PostgresAnswers

  /** The readings of the request context: in the service, at the adapter's entry, lookup, insert and end. */
  datatype Contexts = Contexts(
    service: Option<Error>, entry: Option<Error>, lookup: Option<Error>, insert: Option<Error>, end: Option<Error>)
  {
    /** Live wherever a call that creates its item reads it. */
    predicate LetsCreate() {
      service.None? && entry.None? && insert.None? && end.None?
    }
  }

  /** RFC 4122 version 4, variant 10. */
  predicate IsVersion4(id: Uuid) {
    id[6] / 16 == 4 && id[8] / 64 == 2
  }

  /** In the text form a version 4 ID has a 4 where the version stands, and one of 8, 9, a and b for the variant. */
  lemma Version4InText(id: Uuid)
    ensures var text := UuidText(id);
            |text| == 36 && (IsVersion4(id) <==> text[14] == '4' as int && text[19] in [56, 57, 97, 98])
  {
    var a, b, c, d, e := Hex(id[..4]), Hex(id[4..6]), Hex(id[6..8]), Hex(id[8..10]), Hex(id[10..]);
    HexWidth(id[..4]);
    HexWidth(id[4..6]);
    HexWidth(id[6..8]);
    HexWidth(id[8..10]);
    HexWidth(id[10..]);
    var text := UuidText(id);
    assert text[14] == c[0] == HexCode(id[6] / 16);
    assert text[19] == d[0] == HexCode(id[8] / 16);
  }

  function InputOf(item: Item): CreateInput {
    CreateInput(item.name, item.description)
  }

  function ItemFor(c: CreateInput, id: Uuid, createdAt: Instant): Item {
    Item(id, c.name, c.description, createdAt)
  }

  /** The creation time: a clock that reads zero is replaced by the wall clock. */
  function CreatedAt(reading: Instant, wall: Instant): Instant {
    if reading.IsZero() then wall else reading
  }

  /** Why the service itself refuses a call, in the order of its checks. */
  function Refusal(
      ctx: Option<Error>, key: string, input: CreateInput, available: bool, generated: Option<Uuid>): (r: Option<Error>)
    ensures r.None? ==> available && generated.Some? && ValidateCreateInput(input).Ok?
  {
    if ctx.Some? then ctx
    else if !ValidKey(key) then Some(InvalidInput("idempotency_key"))
    else if ValidateCreateInput(input).Err? then Some(ValidateCreateInput(input).error)
    else if !available then Some(IdempotencyUnavailable)
    else if generated.None? || !IsVersion4(generated.value) then Some(IdGeneration)
    else None
  }

  /** Why an adapter refuses what it is handed. */
  function AdapterRefusal(key: string, fingerprint: string, id: Uuid): Option<Error> {
    if !ValidKey(key) then Some(InvalidInput("idempotency_key"))
    else if id == NIL_UUID || DecodeDigest(fingerprint).None? then Some(IdempotencyState)
    else None
  }

  /** What an adapter refuses: a bad key first, then the nil ID or a fingerprint that is not 64 hex digits. */
  lemma AdapterRefusesExactly(key: string, fingerprint: string, id: Uuid)
    ensures AdapterRefusal(key, fingerprint, id) ==
            if !IsKey(key) then Some(InvalidInput("idempotency_key"))
            else if id == seq(16, _ => 0) || |fingerprint| != 64
                    || exists i :: 0 <= i < |fingerprint| && !HexDigitCode(fingerprint[i] as int)
            then Some(IdempotencyState)
            else None
  {
    ValidKeys(key);
    HexTextIsDigits(fingerprint);
  }

  /** What the service hands over always passes the adapters' checks. */
  lemma ServiceIsNeverRefused(sha: Hash, scope: string, key: string, input: CreateInput, id: Uuid)
    requires IsSha(sha) && ValidateCreateInput(input).Ok? && IsVersion4(id)
    ensures AdapterRefusal(StorageKey(sha, scope, key), FingerprintCreateInput(sha, input).value, id).None?
  {
    StorageKeyIsValid(sha, scope, key);
    FingerprintIsOfCanonical(sha, input);
    Version4IsNotNil(id);
    GoodRequestIsNotRefused(StorageKey(sha, scope, key), FingerprintCreateInput(sha, input).value, id);
  }

  lemma GoodRequestIsNotRefused(key: string, fingerprint: string, id: Uuid)
    requires ValidKey(key) && DecodeDigest(fingerprint).Some? && id != NIL_UUID
    ensures AdapterRefusal(key, fingerprint, id).None?
  {
  }

  lemma Version4IsNotNil(id: Uuid)
    requires IsVersion4(id)
    ensures id != NIL_UUID
  {
    assert NIL_UUID[6] == 0;
  }

  /** The fingerprint digest of a canonical input. */
  type Marker = CreateInput -> Digest

  function MarkerOf(sha: Hash): Marker {
    c => InputHash(sha, c)
  }

  predicate TellsApart(mark: Marker, a: CreateInput, b: CreateInput) {
    mark(a) == mark(b) ==> a == b
  }

  /** If the hash does not confuse their texts, the fingerprint does not confuse two inputs. */
  lemma MarkerTellsApart(sha: Hash, a: CreateInput, b: CreateInput)
    requires WellFormed(a) && WellFormed(b) && NoCollision(sha, InputText(a), InputText(b))
    ensures TellsApart(MarkerOf(sha), a, b)
  {
    FingerprintsTellInputsApart(sha, a, b);
  }

  /** Every record stands for the input its item was made of. */
  ghost predicate Faithful(mark: Marker, items: map<Uuid, Item>, records: map<Digest, Record>) {
    forall k :: k in records ==> Stands(mark, items, records[k])
  }

  ghost predicate Stands(mark: Marker, items: map<Uuid, Item>, record: Record) {
    && record.itemId in items
    && WellFormed(InputOf(items[record.itemId]))
    && record.fingerprint == mark(InputOf(items[record.itemId]))
  }

  lemma AddingKeepsFaithful(
      mark: Marker, items: map<Uuid, Item>, records: map<Digest, Record>, key: Digest, value: Item, expiresAt: int)
    requires Faithful(mark, items, records) && value.id !in items && WellFormed(InputOf(value))
    ensures Faithful(mark, items[value.id := value],
                     records[key := Record(mark(InputOf(value)), value.id, expiresAt)])
  {
    var grown := items[value.id := value];
    forall k | k in records ensures Stands(mark, grown, records[k]) {
      assert Stands(mark, items, records[k]);
    }
  }

  /** The item's name and description are those the client sent, but for the white space around them. */
  ghost predicate MadeOf(input: CreateInput, item: Item) {
    Trims(input.name, item.name) && Trims(input.description, item.description)
  }

  /** What the service hands over for a client's scope, key and input: key digest, fingerprint and candidate. */
  ghost predicate MadeFor(
      sha: Hash, scope: string, key: string, input: CreateInput, hash: Digest, fingerprint: Digest, value: Item)
  {
    && ValidateCreateInput(input).Ok? && MadeOf(input, value)
    && hash == KeyHash(sha, scope, key) && fingerprint == InputHash(sha, InputOf(value))
  }

  lemma MadeForIsCanonical(
      sha: Hash, scope: string, key: string, input: CreateInput, hash: Digest, fingerprint: Digest, value: Item)
    requires MadeFor(sha, scope, key, input, hash, fingerprint, value)
    ensures ValidateCreateInput(input) == Ok(InputOf(value)) && WellFormed(InputOf(value))
  {
    MadeOfIsCanonical(input, value);
  }

  lemma MadeOfIsCanonical(input: CreateInput, item: Item)
    requires ValidateCreateInput(input).Ok?
    ensures MadeOf(input, item) <==> InputOf(item) == ValidateCreateInput(input).value
  {
    CanonicalIsFixed(input);
    if MadeOf(input, item) {
      TrimsIsUnique(input.name, item.name);
      TrimsIsUnique(input.description, item.description);
    }
  }

  /** Why a call that the service lets through fails when no record is retained for its key. */
  ghost predicate FailsFor(s: Shared, ctx: Contexts, key: Digest, id: Uuid, now: int, bound: int, answer: Answer) {
    answer.Failure? && key !in Cleaned(s.records, now) ==>
      answer.error ==
      if ctx.entry.Some? then ctx.entry.value
      else if key in s.inflight then IdempotencyInProgress
      else if !HasRoom(s, key, now, bound) then IdempotencyUnavailable
      else if ctx.insert.Some? then ctx.insert.value
      else if id in s.items then Conflict
      else if ctx.end.Some? then ctx.end.value
      else answer.error
  }

  /** Replay for the same input and conflict for any other. */
  predicate Answers(same: bool, stored: Item, answer: Answer) {
    if !same then answer == Failure(IdempotencyConflict)
    else answer == if stored.id == NIL_UUID then Failure(IdempotencyState) else Success(stored, true)
  }

  /**
   * What a client gets, unless the hash confuses the texts of two inputs: an
   * item made of what it sent, and from a retained record a replay if that
   * record's item was made of the same and a conflict otherwise.
   */
  ghost predicate FitsRequest(sha: Hash, input: CreateInput, c: CreateInput, retained: Option<Item>, answer: Answer) {
    && (answer.Success? && NoCollision(sha, InputText(c), InputText(InputOf(answer.item))) ==>
          MadeOf(input, answer.item))
    && (retained.Some? && NoCollision(sha, InputText(c), InputText(InputOf(retained.value))) ==>
          Answers(MadeOf(input, retained.value), retained.value, answer))
  }

  /** The same in terms of canonical inputs. */
  ghost predicate FitsInput(sha: Hash, c: CreateInput, retained: Option<Item>, answer: Answer) {
    && (answer.Success? && NoCollision(sha, InputText(c), InputText(InputOf(answer.item))) ==>
          InputOf(answer.item) == c)
    && (retained.Some? && NoCollision(sha, InputText(c), InputText(InputOf(retained.value))) ==>
          Answers(InputOf(retained.value) == c, retained.value, answer))
  }

  lemma FitsInputFitsRequest(sha: Hash, input: CreateInput, retained: Option<Item>, answer: Answer)
    requires ValidateCreateInput(input).Ok? && FitsInput(sha, ValidateCreateInput(input).value, retained, answer)
    ensures FitsRequest(sha, input, ValidateCreateInput(input).value, retained, answer)
  {
    if answer.Success? { MadeOfIsCanonical(input, answer.item); }
    if retained.Some? { MadeOfIsCanonical(input, retained.value); }
  }

  /** The item of the record that a clean-up at `now` retains for the key, if any. */
  function Retained(s: Shared, key: Digest, now: int): Option<Item> {
    var records := Cleaned(s.records, now);
    if key in records && records[key].itemId in s.items then Some(s.items[records[key].itemId]) else None
  }

  /**
   * One keyed create through the service. A success returns a stored item made of
   * the caller's own canonical input; a new item is made exactly when nothing is
   * retained or in flight for the key, there is a slot and the ID is unused; a
   * retained record decides between replay and conflict by the input alone;
   * whatever happens, records stay faithful.
   */
  method CreateIdempotent(
      store: Store?, ctx: Contexts, sha: Hash, requested: Option<string>, input: CreateInput, key: string,
      generated: Option<Uuid>, reading: Instant, wall: Instant, now: int, commitNow: int)
    returns (answer: Answer)
    requires IsSha(sha)
    requires store != null ==> store.Valid() && Faithful(MarkerOf(sha), store.items, store.records)
    modifies store
    ensures store != null ==>
              && store.Valid() && Faithful(MarkerOf(sha), store.items, store.records)
              && store.inflight == old(store.inflight)
    ensures Refusal(ctx.service, key, input, store != null, generated).Some? ==>
              && answer == Failure(Refusal(ctx.service, key, input, store != null, generated).value)
              && (store != null ==> store.Snapshot() == old(store.Snapshot()))
    ensures answer.Success? ==>
              && Refusal(ctx.service, key, input, store != null, generated).None?
              && store.Holds(answer.item) && answer.item.id != NIL_UUID
              && (answer.replayed ==> store.items == old(store.items))
    ensures Refusal(ctx.service, key, input, store != null, generated).None? ==>
              var hash := KeyHash(sha, EffectiveScope(requested), key);
              var c := ValidateCreateInput(input).value;
              && (answer.Success? && !answer.replayed <==>
                    ctx.LetsCreate() && old(store.Admits(hash, generated.value, now)))
              && (answer.Success? && !answer.replayed ==>
                    && MadeOf(input, answer.item) && answer.item.id == generated.value
                    && answer.item.createdAt == (if reading == Instant(0, 0) then wall else reading)
                    && store.items == old(store.items)[generated.value := answer.item]
                    && store.Records(hash, Record(InputHash(sha, c), generated.value, commitNow + RETENTION)))
              && FailsFor(old(store.Snapshot()), ctx, hash, generated.value, now, store.Bound(), answer)
              && (ctx.entry.None? && ctx.lookup.None? ==>
                    FitsRequest(sha, input, c, Retained(old(store.Snapshot()), hash, now), answer))
  {
    var prepared := Prepare(ctx.service, sha, requested, input, key, store != null, generated, reading, wall);
    if prepared.Err? {
      return Failure(prepared.error);
    }
    answer := Proceed(store, ctx, sha, input, prepared.value, now, commitNow);
  }

  /** The call with its digests and candidate worked out. */
  method Proceed(
      store: Store, ctx: Contexts, sha: Hash, ghost input: CreateInput, call: Call, now: int, commitNow: int)
    returns (answer: Answer)
    requires store.Valid() && Faithful(MarkerOf(sha), store.items, store.records)
    requires ValidateCreateInput(input) == Ok(InputOf(call.value)) && MadeOf(input, call.value)
    requires call.fingerprint == InputHash(sha, InputOf(call.value))
    requires call.refusal.None? && call.value.id != NIL_UUID
    modifies store
    ensures store.Valid() && store.inflight == old(store.inflight)
    ensures Faithful(MarkerOf(sha), store.items, store.records)
    ensures answer.Success? ==> store.Holds(answer.item) && answer.item.id != NIL_UUID
    ensures answer.Success? && answer.replayed ==> store.items == old(store.items)
    ensures answer.Success? && !answer.replayed <==>
              ctx.entry.None? && ctx.insert.None? && ctx.end.None? && old(store.Admits(call.hash, call.value.id, now))
    ensures answer.Success? && !answer.replayed ==>
              && MadeOf(input, answer.item)
              && answer.item == call.value && store.items == old(store.items)[call.value.id := call.value]
              && store.Records(call.hash, Record(call.fingerprint, call.value.id, commitNow + RETENTION))
    ensures FailsFor(old(store.Snapshot()), ctx, call.hash, call.value.id, now, store.Bound(), answer)
    ensures ctx.entry.None? && ctx.lookup.None? ==>
              FitsRequest(sha, input, InputOf(call.value), Retained(old(store.Snapshot()), call.hash, now), answer)
  {
    ghost var retained := Retained(store.Snapshot(), call.hash, now);
    assert WellFormed(InputOf(call.value));
    answer := HandOver(store, ctx, MarkerOf(sha), call, now, commitNow);
    if ctx.entry.None? && ctx.lookup.None? {
      FitsMarkerFitsInput(sha, InputOf(call.value), retained, answer);
      FitsInputFitsRequest(sha, input, retained, answer);
    }
  }

  /** What the adapter works on, decoded: key digest, fingerprint digest and candidate, and its own validation. */
  datatype Call = Call(hash: Digest, fingerprint: Digest, value: Item, refusal: Option<Error>)

  /** The service's checks, and the texts it hands over as the adapter reads them. */
  method Prepare(
      ctx: Option<Error>, sha: Hash, requested: Option<string>, input: CreateInput, key: string, available: bool,
      generated: Option<Uuid>, reading: Instant, wall: Instant)
    returns (r: Result<Call>)
    requires IsSha(sha)
    ensures match Refusal(ctx, key, input, available, generated)
            case Some(error) => r == Err(error)
            case None =>
              && r.Ok? && r.value.refusal.None? && ValidateCreateInput(input) == Ok(InputOf(r.value.value))
              && MadeFor(sha, EffectiveScope(requested), key, input,
                         r.value.hash, r.value.fingerprint, r.value.value)
              && r.value.value.id == generated.value && r.value.value.id != NIL_UUID
              && r.value.value.createdAt == (if reading == Instant(0, 0) then wall else reading)
  {
    if ctx.Some? {
      return Err(ctx.value);
    }
    var keyError := ValidateIdempotencyKey(key);
    if keyError.Some? {
      return Err(keyError.value);
    }
    var validated := ValidateCreateInput(input);
    if validated.Err? {
      return Err(validated.error);
    }
    if !available {
      return Err(IdempotencyUnavailable);
    }
    if generated.None? || !IsVersion4(generated.value) {
      return Err(IdGeneration);
    }
    var value := ItemFor(validated.value, generated.value, CreatedAt(reading, wall));
    var storageKey := StorageKey(sha, EffectiveScope(requested), key);
    var fingerprint := FingerprintCreateInput(sha, validated.value);
    assert fingerprint.Ok? && DecodeDigest(fingerprint.value) == Some(MarkerOf(sha)(validated.value)) by {
      FingerprintIsOfCanonical(sha, input);
    }
    var refusal := AdapterRefusal(storageKey, fingerprint.value, value.id);
    assert refusal.None? && value.id != NIL_UUID by {
      FingerprintIsOfCanonical(sha, input);
      ServiceIsNeverRefused(sha, EffectiveScope(requested), key, input, value.id);
      Version4IsNotNil(value.id);
    }
    MadeOfIsCanonical(input, value);
    return Ok(Call(sha(storageKey), DecodeDigest(fingerprint.value).value, value, refusal));
  }

  /** The same promise, unless the fingerprint confuses two inputs. */
  ghost predicate FitsMarker(mark: Marker, c: CreateInput, retained: Option<Item>, answer: Answer) {
    && (answer.Success? ==> WellFormed(InputOf(answer.item)) && mark(InputOf(answer.item)) == mark(c))
    && (retained.Some? ==> WellFormed(InputOf(retained.value)))
    && (retained.Some? && TellsApart(mark, c, InputOf(retained.value)) ==>
          Answers(InputOf(retained.value) == c, retained.value, answer))
  }

  lemma FitsMarkerFitsInput(sha: Hash, c: CreateInput, retained: Option<Item>, answer: Answer)
    requires WellFormed(c) && FitsMarker(MarkerOf(sha), c, retained, answer)
    ensures FitsInput(sha, c, retained, answer)
  {
    if answer.Success? && NoCollision(sha, InputText(c), InputText(InputOf(answer.item))) {
      MarkerTellsApart(sha, c, InputOf(answer.item));
    }
    if retained.Some? && NoCollision(sha, InputText(c), InputText(InputOf(retained.value))) {
      MarkerTellsApart(sha, c, InputOf(retained.value));
    }
  }

  /** The adapter's side of the call, and the service's last check of its answer. */
  method HandOver(store: Store, ctx: Contexts, ghost mark: Marker, call: Call, now: int, commitNow: int)
    returns (answer: Answer)
    requires store.Valid() && Faithful(mark, store.items, store.records) && WellFormed(InputOf(call.value))
    requires call.fingerprint == mark(InputOf(call.value)) && call.refusal.None? && call.value.id != NIL_UUID
    modifies store
    ensures store.Valid() && Faithful(mark, store.items, store.records) && store.inflight == old(store.inflight)
    ensures answer.Success? ==> store.Holds(answer.item) && answer.item.id != NIL_UUID
    ensures answer.Success? && answer.replayed ==> store.items == old(store.items)
    ensures answer.Success? && !answer.replayed <==>
              ctx.entry.None? && ctx.insert.None? && ctx.end.None? && old(store.Admits(call.hash, call.value.id, now))
    ensures answer.Success? && !answer.replayed ==>
              && answer.item == call.value && store.items == old(store.items)[call.value.id := call.value]
              && store.Records(call.hash, Record(call.fingerprint, call.value.id, commitNow + RETENTION))
    ensures FailsFor(old(store.Snapshot()), ctx, call.hash, call.value.id, now, store.Bound(), answer)
    ensures ctx.entry.None? && ctx.lookup.None? ==>
              FitsMarker(mark, InputOf(call.value), Retained(old(store.Snapshot()), call.hash, now), answer)
  {
    ghost var items, records := store.items, store.records;
    answer := store.CreateIdempotent(
      ctx.entry, ctx.lookup, ctx.insert, ctx.end, call.refusal, call.value, call.hash, call.fingerprint,
      now, commitNow);
    if store.items != items {
      AddingKeepsFaithful(mark, items, Cleaned(records, now), call.hash, call.value, commitNow + RETENTION);
    }
    if call.hash in Cleaned(records, now) {
      assert Stands(mark, items, records[call.hash]);
    }
    if answer.Success? && answer.item.id == NIL_UUID {
      return Failure(IdempotencyState);
    }
  }

  // ----- Retries in every interleaving -----

  /** Two requests of one scope and key have the same fingerprint exactly when the second input makes the first item. */
  lemma SameRequestIffSameInput(
      sha: Hash, scope: string, key: string, first: CreateInput, second: CreateInput,
      hash: Digest, hash': Digest, fingerprint: Digest, fingerprint': Digest, value: Item, value': Item)
    requires MadeFor(sha, scope, key, first, hash, fingerprint, value)
    requires MadeFor(sha, scope, key, second, hash', fingerprint', value')
    requires NoCollision(sha, InputText(InputOf(value)), InputText(InputOf(value')))
    ensures hash == hash' && (fingerprint == fingerprint' <==> MadeOf(second, value))
  {
    MadeForIsCanonical(sha, scope, key, first, hash, fingerprint, value);
    MadeForIsCanonical(sha, scope, key, second, hash', fingerprint', value');
    FingerprintsTellInputsApart(sha, InputOf(value), InputOf(value'));
    MadeOfIsCanonical(second, value);
  }

  /**
   * In every run of the in-memory adapter: a retry under the same scope and key,
   * within the retention of the commit, is answered with the committed item when
   * its input, white space around it aside, is what that item was made of, and
   * with a conflict otherwise.
   */
  lemma MemoryRetryIsDecidedByInput(
      states: seq<MemoryProtocol.State>, events: seq<MemoryProtocol.Event>, bound: nat, i: nat, j: nat,
      c: nat, now: int, d: nat, sha: Hash, scope: string, key: string, first: CreateInput, second: CreateInput)
    requires MemoryRuns.IsRun(states, events, bound) && i < j < |events|
    requires events[i] == MemoryProtocol.Commit(c, now) && MemoryProtocol.Enabled(states[i], events[i])
    requires events[j] == MemoryProtocol.Reserve(d) && MemoryProtocol.Enabled(states[j], events[j])
    requires MemoryRuns.ClocksBelow(states, events, i, j + 1, now + RETENTION) && states[j].callers[d].ctx.None?
    requires var q := states[i].callers[c].request;
             q.Keyed? && MadeFor(sha, scope, key, first, q.key, q.fingerprint, q.value)
    requires var q := states[j].callers[d].request;
             q.Keyed? && MadeFor(sha, scope, key, second, q.key, q.fingerprint, q.value)
    requires NoCollision(sha, InputText(InputOf(states[i].callers[c].request.value)),
                              InputText(InputOf(states[j].callers[d].request.value)))
    ensures d in states[j + 1].callers
    ensures states[j + 1].callers[d].phase == MemoryProtocol.Returned(
              if MadeOf(second, states[i].callers[c].request.value)
              then MemoryProtocol.Success(states[i].callers[c].request.value, true)
              else MemoryProtocol.Failure(IdempotencyConflict))
  {
    var q, q' := states[i].callers[c].request, states[j].callers[d].request;
    SameRequestIffSameInput(sha, scope, key, first, second, q.key, q'.key, q.fingerprint, q'.fingerprint,
                            q.value, q'.value);
    MemoryRuns.RetryReplaysOrConflicts(states, events, bound, i, j, c, now, d);
  }

  /**
   * The same for every run of the PostgreSQL adapter's transactions, within 24
   * hours of the row's insert, once the retry's own next event commits with an
   * acknowledgement or rolls back.
   */
  lemma PostgresRetryIsDecidedByInput(
      states: seq<PostgresProtocol.State>, events: seq<PostgresProtocol.Event>, lock: Digest -> int,
      h: nat, i: nat, j: nat, l: nat, c: nat, now: int, lost: Option<Error>, d: nat,
      sha: Hash, scope: string, key: string, first: CreateInput, second: CreateInput)
    requires PostgresRuns.IsRun(states, events, lock) && h < i < j < l < |events|
    requires events[h] == PostgresProtocol.InsertRow(c, now)
    requires events[i] == PostgresProtocol.Commit(c, lost) && c in states[i].txs
    requires PostgresRuns.SweepsBelow(states, events, i, j, now + RETENTION)
    requires events[j] == PostgresProtocol.Lookup(d) && d in states[j].txs
    requires events[l] == PostgresProtocol.Commit(d, None) || events[l] == PostgresProtocol.Rollback(d)
    requires states[j].txs[d].sweptAt < now + RETENTION
    requires var tx := states[i].txs[c]; MadeFor(sha, scope, key, first, tx.key, tx.fingerprint, tx.value)
    requires var tx := states[j].txs[d]; MadeFor(sha, scope, key, second, tx.key, tx.fingerprint, tx.value)
    requires NoCollision(sha, InputText(InputOf(states[i].txs[c].value)), InputText(InputOf(states[j].txs[d].value)))
    ensures d in states[l + 1].txs
    ensures states[l + 1].txs[d].phase == PostgresProtocol.Ended(
              if MadeOf(second, states[i].txs[c].value)
              then PostgresProtocol.Success(states[i].txs[c].value, true)
              else PostgresProtocol.Failure(IdempotencyConflict))
  {
    var x, y := states[i].txs[c], states[j].txs[d];
    SameRequestIffSameInput(sha, scope, key, first, second, x.key, y.key, x.fingerprint, y.fingerprint,
                            x.value, y.value);
    PostgresAnswers.RetryIsAnswered(states, events, lock, h, i, j, l, c, now, lost, d);
  }
}
