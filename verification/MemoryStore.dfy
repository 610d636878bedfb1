/** The in-memory store: the maps its mutexes guard, changed in place, one method per critical section. */
module MemoryStore {
  import opened Items
  import opened MemorySteps
  import opened Listing
  import opened CursorCodec
  import Lexicographic

  datatype Answer = Success(item: Item, replayed: bool) | Failure(error: Error)

  /** The verdict when there is a record for the key. */
  lemma RecordDecides(s: Shared, ctx: Option<Error>, key: Digest, fingerprint: Digest, bound: int)
    requires key in s.records
    ensures var record := s.records[key];
            Decide(s, ctx, key, fingerprint, bound) ==
            if record.fingerprint != fingerprint then Refuse(IdempotencyConflict)
            else if ctx == Some(Canceled) || ctx == Some(DeadlineExceeded) then Refuse(ctx.value)
            else if ctx.Some? || record.itemId !in s.items then Refuse(IdempotencyState)
            else Replay(s.items[record.itemId])
  {
  }

  class Store {
    var items: map<Uuid, Item>
    var records: map<Digest, Record>
    var inflight: set<Digest>
    const maxEntries: int

    /** Items are stored under their own IDs. */
    ghost predicate Valid()
      reads this
    {
      Keyed(items)
    }

    /** The item is stored under its own ID. */
    ghost predicate Holds(item: Item)
      reads this
    {
      item.id in items && items[item.id] == item
    }

    /** A new item with this ID can be made for the key. */
    ghost predicate Admits(key: Digest, id: Uuid, now: int)
      reads this
    {
      HasRoom(Snapshot(), key, now, Bound()) && id !in items
    }

    ghost predicate Records(key: Digest, record: Record)
      reads this
    {
      key in records && records[key] == record
    }

    ghost function Snapshot(): Shared
      reads this
    {
      Shared(items, records, inflight)
    }

    function Bound(): int {
      if maxEntries > 0 then maxEntries else MAX_IDEMPOTENCY_ENTRIES
    }

    constructor (maxEntries: int)
      ensures Valid() && Snapshot() == Shared(map[], map[], {}) && this.maxEntries == maxEntries
    {
      items, records, inflight := map[], map[], {};
      this.maxEntries := maxEntries;
    }

    // ----- Creating -----

    /** Create under the item mutex, with the reading of the context taken there. */
    method Create(ctx: Option<Error>, value: Item) returns (r: Result<Item>)
      requires Valid()
      modifies this`items
      ensures Valid() && items == AfterInsert(old(items), ctx, value)
      ensures r == match InsertError(old(items), ctx, value) case Some(error) => Err(error) case None => Ok(value)
    {
      if ctx.Some? {
        return Err(ctx.value);
      }
      if value.id in items {
        return Err(Conflict);
      }
      items := items[value.id := value];
      return Ok(value);
    }

    method Get(ctx: Option<Error>, id: Uuid) returns (r: Result<Item>)
      ensures r.Ok? <==> ctx.None? && id != NIL_UUID && id in items
      ensures r.Ok? ==> r.value == items[id]
      ensures ctx.Some? ==> r == Err(ctx.value)
      ensures ctx.None? && id == NIL_UUID ==> r == Err(InvalidInput("id"))
      ensures ctx.None? && id != NIL_UUID && id !in items ==> r == Err(NotFound)
    {
      if ctx.Some? {
        return Err(ctx.value);
      }
      if id == NIL_UUID {
        return Err(InvalidInput("id"));
      }
      if id !in items {
        return Err(NotFound);
      }
      return Ok(items[id]);
    }

    /** Deletes exactly the records at or past their expiry. */
    method CleanupIdempotencyLocked(now: int)
      modifies this`records
      ensures records == Cleaned(old(records), now)
    {
      var todo := records.Keys;
      while todo != {}
        invariant todo <= records.Keys <= old(records.Keys)
        invariant forall k :: k in records ==> records[k] == old(records)[k]
        invariant forall k :: k in old(records) && k !in todo ==> (k in records <==> !Expired(old(records)[k], now))
      {
        var k :| k in todo;
        todo := todo - {k};
        if now >= records[k].expiresAt {
          records := records - {k};
        }
      }
    }

    /** The first critical section of CreateIdempotent: clean up, look up, reserve. */
    method Reserve(ctx: Option<Error>, key: Digest, fingerprint: Digest, now: int) returns (verdict: Verdict)
      modifies this`records, this`inflight
      ensures Snapshot() == AfterReserve(old(Snapshot()), ctx, key, fingerprint, now, Bound())
      ensures verdict == Decide(old(Snapshot()).(records := Cleaned(old(records), now)), ctx, key, fingerprint, Bound())
    {
      CleanupIdempotencyLocked(now);
      if key in records {
        if records[key].fingerprint != fingerprint {
          return Refuse(IdempotencyConflict);
        }
        var found := GetItem(ctx, records[key].itemId);
        return found;
      }
      if key in inflight {
        return Refuse(IdempotencyInProgress);
      }
      if |records| + |inflight| >= Bound() {
        return Refuse(IdempotencyUnavailable);
      }
      inflight := inflight + {key};
      return Proceed;
    }

    /** Looks up a record's item: a replay of it, or the refusal that keeps the caller from creating another. */
    method GetItem(ctx: Option<Error>, id: Uuid) returns (verdict: Verdict)
      ensures verdict.Replay? <==> ctx.None? && id in items
      ensures verdict.Replay? ==> verdict.item == items[id]
      ensures verdict.Refuse? <==> ctx.Some? || id !in items
      ensures verdict.Refuse? ==>
                if ctx.Some? && (ctx.value.Canceled? || ctx.value.DeadlineExceeded?) then verdict.error == ctx.value
                else verdict.error == IdempotencyState
    {
      if ctx.Some? {
        return Refuse(if ctx.value.Canceled? || ctx.value.DeadlineExceeded? then ctx.value else IdempotencyState);
      }
      if id !in items {
        return Refuse(IdempotencyState);
      }
      return Replay(items[id]);
    }

    method ClearInFlight(key: Digest)
      modifies this`inflight
      ensures Snapshot() == AfterClear(old(Snapshot()), key)
    {
      inflight := inflight - {key};
    }

    /** The last critical section: the marker becomes a record. */
    method Commit(key: Digest, fingerprint: Digest, id: Uuid, now: int)
      modifies this`records, this`inflight
      ensures Snapshot() == AfterCommit(old(Snapshot()), key, fingerprint, id, now)
    {
      inflight := inflight - {key};
      records := records[key := Record(fingerprint, id, now + RETENTION)];
    }

    /**
     * CreateIdempotent without interference from other callers. The context is
     * read at entry, at the lookup, at the insert and at the end; the clock
     * before the first section and in the last.
     */
    method CreateIdempotent(
        entry: Option<Error>, lookup: Option<Error>, insert: Option<Error>, end: Option<Error>,
        refusal: Option<Error>, value: Item, key: Digest, fingerprint: Digest, now: int, commitNow: int)
      returns (answer: Answer)
      requires Valid() && (refusal.None? ==> value.id != NIL_UUID)
      modifies this
      ensures Valid() && inflight == old(inflight)
      ensures answer.Success? && answer.replayed ==>
                && Snapshot() == old(Snapshot()).(records := Cleaned(old(records), now))
                && key in records && records[key].fingerprint == fingerprint
                && records[key].itemId in items && answer.item == items[records[key].itemId]
      ensures answer.Success? && !answer.replayed ==>
                && key !in Cleaned(old(records), now) && value.id !in old(items) && answer.item == value
                && items == old(items)[value.id := value]
                && records == Cleaned(old(records), now)[key := Record(fingerprint, value.id, commitNow + RETENTION)]
      ensures answer.Failure? && items != old(items) ==>
                && end == Some(answer.error) && value.id !in old(items)
                && items == old(items)[value.id := value]
                && records == Cleaned(old(records), now)[key := Record(fingerprint, value.id, commitNow + RETENTION)]
      ensures answer.Failure? && items == old(items) ==>
                records == old(records) || records == Cleaned(old(records), now)
      ensures entry.None? && refusal.None? && key in Cleaned(old(records), now) ==>
                var record := old(records)[key];
                if record.fingerprint != fingerprint then answer == Failure(IdempotencyConflict)
                else if lookup == Some(Canceled) || lookup == Some(DeadlineExceeded)
                then answer == Failure(lookup.value)
                else if lookup.Some? || record.itemId !in old(items) then answer == Failure(IdempotencyState)
                else answer == Success(old(items)[record.itemId], true)
      ensures entry.Some? ==> answer == Failure(entry.value)
      ensures entry.None? && refusal.Some? ==> answer == Failure(refusal.value)
      ensures entry.None? && refusal.None? && key !in Cleaned(old(records), now) && key in old(inflight) ==>
                answer == Failure(IdempotencyInProgress)
      ensures entry.None? && refusal.None? && key !in Cleaned(old(records), now) && key !in old(inflight)
              && !HasRoom(old(Snapshot()), key, now, Bound()) ==>
                answer == Failure(IdempotencyUnavailable)
      ensures entry.None? && refusal.None? && HasRoom(old(Snapshot()), key, now, Bound()) ==>
                match InsertError(old(items), insert, value)
                case Some(error) => answer == Failure(error) && items == old(items)
                case None =>
                  items != old(items) && answer == if end.Some? then Failure(end.value) else Success(value, false)
    {
      if entry.Some? {
        return Failure(entry.value);
      }
      if refusal.Some? {
        return Failure(refusal.value);
      }
      var verdict := Reserve(lookup, key, fingerprint, now);
      if key in records {
        RecordDecides(Snapshot(), lookup, key, fingerprint, Bound());
      }
      match verdict {
        case Refuse(error) => return Failure(error);
        case Replay(item) => return Success(item, true);
        case Proceed =>
      }
      assert key !in old(inflight);
      var created := Create(insert, value);
      if created.Err? {
        ClearInFlight(key);
        return Failure(created.error);
      }
      Commit(key, fingerprint, created.value.id, commitNow);
      if end.Some? {
        return Failure(end.value);
      }
      return Success(created.value, false);
    }

    // ----- Listing -----

    /** All values of the item map, in whatever order the map yields them. */
    method Scan() returns (values: seq<Item>)
      requires Valid()
      ensures Scans(items, values)
    {
      values := [];
      var todo := items.Keys;
      ghost var done: map<Uuid, Item> := map[];
      while todo != {}
        invariant todo <= items.Keys && done.Keys == items.Keys - todo
        invariant forall id :: id in done ==> done[id] == items[id]
        invariant Scans(done, values)
      {
        var id :| id in todo;
        todo := todo - {id};
        ScanExtends(done, values, done[id := items[id]], id);
        done := done[id := items[id]];
        values := values + [items[id]];
      }
      assert done == items;
    }

    /** The rows from `offset` on, at most `limit` of them, newest first. */
    method List(ctx: Option<Error>, late: Option<Error>, limit: int, offset: int) returns (r: Result<seq<Item>>)
      requires Valid()
      ensures ctx.Some? ==> r == Err(ctx.value)
      ensures ctx.None? && !(0 <= limit <= MAX_PAGE_SIZE + 1) ==> r == Err(InvalidInput("limit"))
      ensures ctx.None? && 0 <= limit <= MAX_PAGE_SIZE + 1 && offset < 0 ==> r == Err(InvalidInput("offset"))
      ensures ctx.None? && 0 <= limit <= MAX_PAGE_SIZE + 1 && offset >= 0 ==>
                r == if late.Some? then Err(late.value) else Ok(Window(ListingOf(items), offset, limit))
    {
      if ctx.Some? {
        return Err(ctx.value);
      }
      if limit < 0 || limit > MAX_PAGE_SIZE + 1 {
        return Err(InvalidInput("limit"));
      }
      if offset < 0 {
        return Err(InvalidInput("offset"));
      }
      var values := Scan();
      SortedScanLists(true, items, values);
      values := Sorted(true, values);
      ListingIsUnique(items, values, ListingOf(items));
      if late.Some? {
        return Err(late.value);
      }
      var page := CopyPage(values, offset, limit);
      return Ok(page);
    }

    /** The rows strictly after a position, at most `limit` of them, newest first. */
    method ListAfter(ctx: Option<Error>, late: Option<Error>, limit: int, after: Option<Position>)
      returns (r: Result<seq<Item>>)
      requires Valid()
      ensures ctx.Some? ==> r == Err(ctx.value)
      ensures ctx.None? && !(0 <= limit <= MAX_PAGE_SIZE + 1) ==> r == Err(InvalidInput("limit"))
      ensures ctx.None? && 0 <= limit <= MAX_PAGE_SIZE + 1 && after.Some? && ValidatePosition(after.value).Some? ==>
                r == Err(CursorState)
      ensures ctx.None? && 0 <= limit <= MAX_PAGE_SIZE + 1 && (after.None? || ValidatePosition(after.value).None?) ==>
                r == if late.Some? then Err(late.value) else Ok(Window(ListingOf(After(items, after)), 0, limit))
    {
      if ctx.Some? {
        return Err(ctx.value);
      }
      if limit < 0 || limit > MAX_PAGE_SIZE + 1 {
        return Err(InvalidInput("limit"));
      }
      if after.Some? && ValidatePosition(after.value).Some? {
        return Err(CursorState);
      }
      var values := Scan();
      SortedScanLists(false, items, values);
      values := Sorted(false, values);
      if late.Some? {
        return Err(late.value);
      }
      var start := 0;
      if after.Some? {
        start := FindBoundary(values, after.value);
      }
      SuffixListsAfter(items, values, after);
      ListingIsUnique(After(items, after), values[start..], ListingOf(After(items, after)));
      var page := CopyPage(values, start, limit);
      WindowOfSuffix(values, start, 0, limit);
      return Ok(page);
    }

    /** The slice both listings copy out. */
    static method CopyPage(values: seq<Item>, start: nat, limit: nat) returns (page: seq<Item>)
      ensures page == Window(values, start, limit)
    {
      if limit == 0 || start >= |values| {
        return [];
      }
      var count := limit;
      if count > |values| - start {
        count := |values| - start;
      }
      return values[start..start + count];
    }

    /** The exclusive boundary scan: the first row below the position. */
    static method FindBoundary(values: seq<Item>, after: Position) returns (start: nat)
      ensures start == Boundary(values, Some(after))
    {
      start := 0;
      while start < |values|
        invariant start <= |values|
        invariant Boundary(values, Some(after)) == start + Boundary(values[start..], Some(after))
      {
        var value := values[start];
        if value.createdAt.Before(after.createdAt) ||
           (value.createdAt == after.createdAt && Lexicographic.Less(value.id, after.id)) {
          return;
        }
        assert values[start..][1..] == values[start + 1..];
        start := start + 1;
      }
    }
  }
}
