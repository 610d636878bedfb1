/**
 * The critical sections of the in-memory adapter as functions on the data its
 * two mutexes guard: `items` behind `mu`; `records` and `inflight` behind
 * `idempotencyMu`.
 */
module MemorySteps {
  import opened Items

  datatype Record = Record(fingerprint: Digest, itemId: Uuid, expiresAt: int)

  datatype Shared = Shared(items: map<Uuid, Item>, records: map<Digest, Record>, inflight: set<Digest>)

  /** What the reserving section tells its caller. */
  datatype Verdict = Replay(item: Item) | Refuse(error: Error) | Proceed

  predicate Expired(record: Record, now: int) {
    record.expiresAt <= now
  }

  function ExpiredKeys(records: map<Digest, Record>, now: int): set<Digest> {
    set k | k in records && Expired(records[k], now)
  }

  function Cleaned(records: map<Digest, Record>, now: int): map<Digest, Record> {
    records - ExpiredKeys(records, now)
  }

  /** Looking up the item of a record, with the reading of the caller's context. */
  function Fetch(items: map<Uuid, Item>, ctx: Option<Error>, id: Uuid): Verdict {
    if ctx.Some? then
      Refuse(if ctx.value.Canceled? || ctx.value.DeadlineExceeded? then ctx.value else IdempotencyState)
    else if id in items then Replay(items[id])
    else Refuse(IdempotencyState)
  }

  /** The decision taken under the idempotency mutex, after the clean-up. */
  function Decide(s: Shared, ctx: Option<Error>, key: Digest, fingerprint: Digest, bound: int): Verdict {
    if key in s.records then
      if s.records[key].fingerprint != fingerprint then Refuse(IdempotencyConflict)
      else Fetch(s.items, ctx, s.records[key].itemId)
    else if key in s.inflight then Refuse(IdempotencyInProgress)
    else if |s.records| + |s.inflight| >= bound then Refuse(IdempotencyUnavailable)
    else Proceed
  }

  /** Nothing is retained or in flight for the key, and there is a slot for it. */
  predicate HasRoom(s: Shared, key: Digest, now: int, bound: int) {
    var records := Cleaned(s.records, now);
    key !in records && key !in s.inflight && |records| + |s.inflight| < bound
  }

  function AfterReserve(s: Shared, ctx: Option<Error>, key: Digest, fingerprint: Digest, now: int, bound: int): Shared {
    var cleaned := s.(records := Cleaned(s.records, now));
    if Decide(cleaned, ctx, key, fingerprint, bound).Proceed? then
      cleaned.(inflight := cleaned.inflight + {key})
    else cleaned
  }

  /** Why `Create` refuses a value, if it does. */
  function InsertError(items: map<Uuid, Item>, ctx: Option<Error>, value: Item): Option<Error> {
    if ctx.Some? then ctx
    else if value.id in items then Some(Conflict)
    else None
  }

  function AfterInsert(items: map<Uuid, Item>, ctx: Option<Error>, value: Item): map<Uuid, Item> {
    if InsertError(items, ctx, value).None? then items[value.id := value] else items
  }

  function AfterClear(s: Shared, key: Digest): Shared {
    s.(inflight := s.inflight - {key})
  }

  function AfterCommit(s: Shared, key: Digest, fingerprint: Digest, id: Uuid, now: int): Shared {
    s.(inflight := s.inflight - {key},
       records := s.records[key := Record(fingerprint, id, now + RETENTION)])
  }
}
