/** Vocabulary shared by the item package and its adapters. */
module Items {

  datatype Option<+T> = None | Some(value: T)

  datatype Result<+T> = Ok(value: T) | Err(error: Error)

  /** The sentinel errors of the item package, and the two context errors. */
  datatype Error =
    | InvalidInput(field: string)
    | NotFound
    | Conflict
    | StoreUnavailable
    | IdempotencyConflict
    | IdempotencyInProgress
    | IdempotencyUnavailable
    | IdempotencyState
    | InvalidCursor
    | CursorUnavailable
    | CursorState
    | IdGeneration
    | Canceled
    | DeadlineExceeded

  type Byte = b: int | 0 <= b < 256

  /** A SHA-256 digest, read as the 256-bit number its bytes spell. */
  type Digest = nat

  type Uuid = u: seq<Byte> | |u| == 16 witness seq(16, _ => 0)

  const NIL_UUID: Uuid := [0, 0, 0, 0, 0, 0, 0, 0, 0, 0, 0, 0, 0, 0, 0, 0]

  /**
   * A UTC wall instant as time.Time keeps it: whole seconds since the first
   * of January of year one, and the nanoseconds within the second.
   */
  datatype Instant = Instant(sec: int, nsec: int) {
    predicate Before(other: Instant) {
      sec < other.sec || (sec == other.sec && nsec < other.nsec)
    }

    predicate IsZero() {
      sec == 0 && nsec == 0
    }
  }

  datatype Item = Item(id: Uuid, name: string, description: string, createdAt: Instant)

  const DEFAULT_PAGE_SIZE := 20
  const MAX_PAGE_SIZE := 100
  const MAX_IDEMPOTENCY_ENTRIES := 10000

  /** One second, and the 24 hour replay window, in nanoseconds. */
  const SECOND := 1_000_000_000
  const RETENTION := 24 * 3600 * SECOND

  lemma SubsetSize<T>(a: set<T>, b: set<T>)
    requires a <= b
    ensures |a| <= |b|
  {
    assert b == a + (b - a);
  }
}
