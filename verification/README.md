# Item service: a verified model

This project models the parts of the item service whose correctness depends on
state, ordering or exact encodings, and proves what they promise.

* **Idempotent create.** `MemorySteps`, `MemoryProtocol` and `MemoryRuns` model the
  in-memory adapter as a state machine: any number of callers, interleaved at the
  boundaries of the adapter's critical sections, with cancellation at any time;
  `MemoryAnswers` settles what every caller is told, and that none waits for another.
  `PostgresProtocol` and `PostgresRuns` model the PostgreSQL adapter as transactions of any
  number of replicas: try-lock, bounded clean-up with skipped row locks, lookup, two
  inserts, and a commit whose acknowledgement may be lost; `PostgresAnswers` settles what
  every client is told, and `PostgresLocks`, `PostgresRetention`, `PostgresWaits` and
  `PostgresRoutes` what shared lock numbers and the batched clean-up can do. Both adapters
  refine the same
  specification, `AtomicMap`: one map from hashed keys to the item first created for them.
  `JsonStrings`, `Fingerprint` and `KeyedCreate` add the service in front of the adapters:
  canonical input, fingerprints, storage keys and `Service.CreateIdempotent`.
* **Pagination.** `Lexicographic` and `Listing` define the newest-first order and show that
  the two sort comparisons agree; `MemoryStore` is the store as a class; `CursorWalk` proves
  what a page-by-page walk over a growing store returns; `ItemService` has the two list
  operations of the service.
* **Cursor codec.** `TimeWire`, `Base64` and `CursorCodec` give the byte layout, the text
  encoding and the signed token, with its expiry.
* **Rate limiter.** `RateLimit`, `RateLimitRuns`, `RateLimitRetry`, `RateLimitDecisions` and
  `RateLimitReference` specify the token bucket and prove over whole runs exactly when a call
  is granted and what its decision says; `Limiter` is the limiter as a class that meets that
  specification.
* **Text transformations.** `Replacements` (bootstrap rewriting), `Routes` (metric labels)
  and `Bearer` (Authorization header).

`dafny verify dfyconfig.toml` checks all files. A Go string is a Dafny `string` with one
`char` per byte; `GoStrings` holds the few library functions the modelled code calls.
`Unicode` and `Trimming` show that these do what they promise on all code points and on all
strings: what counts as UTF-8, as white space and as a control character, and what trimming
cuts off.

## Reading the model

* Every locked region of the memory adapter is one atomic step. The reserving section
  includes the item lookup it makes under the mutex. Every SQL statement of the PostgreSQL
  adapter is one atomic step of its transaction; committed tables change only at commit.
* Contexts, clocks, generated IDs and the choice of rows a batched clean-up deletes are
  inputs or events. Clocks may jump anywhere unless a lemma says otherwise.
* SHA-256 and HMAC are given functions. Digests are 256-bit numbers. Where a result needs
  it, the lemma assumes that the hash does not confuse the two texts at hand.
* `float64` is modelled by `real`: rounding is abstracted, the guard against negative tokens
  is then unreachable, and a duration is clipped when it exceeds the largest `int64`
  (the code compares with the nearest `float64`). The slack of 1e-9 in the remaining count
  is kept. Limiter and retention clocks are whole nanoseconds; `time.Time.Sub` saturates.
* Joined errors are represented by their leading sentinel.
* A service without a store, or whose store has no keyed create, is one with a null store.
* `sort.Slice` is an insertion sort; the results do not depend on it, because the listing is
  shown to be unique.

## What turned out differently from the documentation

* A cursor whose expiry happens to be the zero time never expires, because the decoder
  takes the zero time for "no expiry". `CursorCodec.RoundTrip` has the exact condition, and
  `CursorCodec.ZeroTimeExpiryNeverExpires` an instance. With clocks after year one it cannot
  happen (`CursorCodec.RoundTripAfterZeroTime`).
* A position without expiry has two accepted tokens, not one
  (`CursorCodec.TwoTokensWithoutExpiry`); with an expiry there is one.
* The range check of `CursorPosition.Validate` rejects no seconds at all: it rejects exactly
  nanosecond fields of a whole second or more (`CursorCodec.RangeCheckIsNormalization`).
* In PostgreSQL the 24 hours are a lower bound only, because the lookup does not test expiry
  and a clean-up can leave an expired row behind. It can do so in exactly two ways
  (`PostgresRetention.ExpiredRowSurvivesIff`): at least 100 other unlocked expired rows are
  due no later, or another transaction, deleting the row in its own clean-up, locks it. In
  the second way one row is enough, if that transaction then gives up. Both happen from the
  empty database on (`PostgresRoutes.CrowdedRoute`, `PostgresRoutes.LockedRoute`). That the
  24 hours are a lower bound is `PostgresRuns.RowStaysStored`.
* The same clean-ups can make retries block each other. Two transactions do exactly when
  both have cleaned up and each is about to look up a row the other is deleting
  (`PostgresWaits.BlockEachOtherIff`, reached in `PostgresRoutes.BlockingRoute`). Both then
  wait until the database ends one of them, whose client is told that the service is
  unavailable, or a context ends; no other step frees them
  (`PostgresWaits.BlockedUntilOneGivesUp`).
* Forgetting idle limiter buckets is unobservable if new keys are rejected at the bound, the
  clock readings do not decrease in the order in which calls take the mutex, and an idle
  bucket never expires or refills completely within its time to live
  (`RateLimitReference.ExpiryIsUnobservable`). Each condition is needed: see
  `RateLimitReference.EvictionIsObservable`,
  `RateLimitReference.OvertakenReadingIsObservable` (the clock is read before the mutex is
  taken, so the second condition can fail) and `RateLimitReference.ShortExpiryIsObservable`.

## Model

| member | source | states |
|---|---|---|
| `AtomicMap.EntryLastsUntilDropped` | internal/item/idempotency.go:50-57 | In every run of the atomic map, an entry made for a key stays until it is forgotten; until then no second entry is made and every answer for the key agrees with it |
| `MemoryProtocol.ReserveStaysWithinBound` | internal/item/memory/idempotency.go:60-69 | A reservation never takes completed plus in-flight keys over the entry bound, and keeps the two sets apart |
| `MemoryProtocol.ReserveKeepsMarkers` | internal/item/memory/idempotency.go:39-69 | Reserving keeps every in-flight marker owned by exactly one caller |
| `MemoryProtocol.InsertKeepsAccounts` | internal/item/memory/store.go:81-94 | Inserting keeps the account of items: plain, recorded, or held by an owner past its insert |
| `MemoryProtocol.CommitKeepsRecords` | internal/item/memory/idempotency.go:84-92 | After a commit every record still names a stored item that its own caller created under that key and fingerprint |
| `MemoryProtocol.StepKeepsInv` | internal/item/memory/idempotency.go:24-98 | Every step of every caller keeps the whole invariant: single ownership of markers, the bound, provenance of items and records, and the link between a caller's progress and the store |
| `MemoryRuns.RunKeepsInv` | internal/item/memory/idempotency.go:24-98 | Every state of every interleaving satisfies that invariant |
| `MemoryRuns.ItemsAreConserved` | internal/item/memory/store.go:86-93 | At every moment of every run the number of stored items is the number of successful plain inserts plus the number of commits plus the owners past their insert |
| `MemoryRuns.StepRefinesAtomic` | internal/item/memory/idempotency.go:39-97 | Every step of every caller is one step of the atomic map; the entry appears at the insert, and only clean-up forgets entries |
| `MemoryRuns.TraceExists` | internal/item/memory/idempotency.go:39-97 | Every run has the trace of forgotten keys and shown answers that the lemmas over runs speak of |
| `MemoryRuns.RunRefinesAtomic` | internal/item/memory/idempotency.go:39-97 | So every interleaving is a run of the atomic map |
| `MemoryRuns.OneItemPerKey` | internal/item/memory/idempotency.go:39-97 | From the insert for a key until its record is cleaned up no second item is made for it, every replay returns that item, and only other fingerprints conflict |
| `MemoryRuns.SuccessWasObserved` | internal/item/memory/idempotency.go:39-97 | Every successful keyed answer was decided at the caller's own insert or replay, later than any moment at which the caller was undecided |
| `MemoryRuns.ClientsGetTheItem` | internal/item/memory/idempotency.go:39-97 | What clients see: from the insert for a key until its record is cleaned up, every keyed call undecided at the insert that succeeds returns that very item, under the fingerprint it was made for |
| `MemoryRuns.RecordsOutliveTheirExpiry` | internal/item/memory/idempotency.go:147-153 | No step changes or removes a record unless it is a clean-up whose clock has reached the record's expiry |
| `MemoryRuns.RecordStaysFresh` | internal/item/memory/idempotency.go:84-92 | Along every run the committed record and item stay as written while all clean-up clocks are within 24 hours of the commit |
| `MemoryRuns.RetryReplaysOrConflicts` | internal/item/memory/idempotency.go:42-56 | A retry with a live context within the retention is answered with the committed item as a replay or with the conflict error, by fingerprint alone; it stores nothing |
| `MemoryRuns.FailureLeavesNothing` | internal/item/memory/idempotency.go:71-75 | A call that returned without having inserted leaves no marker, no item and no record of its own |
| `MemoryRuns.ReturnedCallsCommitted` | internal/item/memory/idempotency.go:81-97 | A keyed call that inserted its item and returned, even with an error, committed its record before |
| `MemoryAnswers.StepAnswer` | internal/item/memory/idempotency.go:24-98 | A step ends an open call with an answer if and only if it is the call's own and gives that answer: the entry error, what the retained record says, in progress, no slot, the plain insert's outcome, the keyed insert's error, or at the end the context error or the item |
| `MemoryAnswers.AnswersAreTold` | internal/item/memory/idempotency.go:24-98 | Along every run a caller holds an answer exactly when some earlier step of its own gave it that answer; answers never change |
| `MemoryAnswers.ObservedIsAnswered` | internal/item/memory/idempotency.go:42-55 | Conversely to the lemma on successes, whatever the atomic step shows reaches its caller at once: a replay as that item, a conflict as the conflict error, a creation as an inserted item |
| `MemoryAnswers.MakerGetsItsItem` | internal/item/memory/idempotency.go:94-97 | Who made an item and reaches the end of its call is told of that very item, or of its context error |
| `MemoryAnswers.ClearTellsTheInsertError` | internal/item/memory/idempotency.go:71-75 | A call whose insert failed answers with the error of that insert |
| `MemoryAnswers.CallsNeverWait` | internal/item/memory/idempotency.go:24-98 | In every state of every run each call has returned, after at most five steps of its own, or can take its next step, whatever the others do |
| `PostgresProtocol.SweepKeepsInv` | internal/item/postgres/store.go:46-57 | A clean-up that skips rows locked by others keeps transactions apart: no row is deleted by two, or deleted while locked by another |
| `PostgresProtocol.CommitKeepsInv` | internal/item/postgres/store.go:200-204 | A commit keeps every other open transaction's view consistent with the tables |
| `PostgresProtocol.StepKeepsInv` | internal/item/postgres/store.go:119-204 | Every statement of every transaction keeps the invariant: lock exclusion, disjoint row locks, consistent views, and every committed row naming a committed item that came with it |
| `PostgresRuns.RunKeepsInv` | internal/item/postgres/store.go:119-204 | Every state of every run satisfies it, for every assignment of lock numbers |
| `PostgresRuns.NewRowBringsItsItem` | internal/item/postgres/store.go:183-204 | A replay row never becomes visible without its new item |
| `PostgresRuns.NewItemBringsItsRow` | internal/item/postgres/store.go:183-204 | A keyed item never becomes visible without its replay row |
| `PostgresRuns.ItemsStay` | internal/item/postgres/store.go:183-204 | Committed items never change or disappear |
| `PostgresRuns.InsertRowFindsNoRow` | internal/item/postgres/store.go:191-199 | The lock makes the row insert safe: the unique index never rejects it |
| `PostgresRuns.LookupFindsTheItem` | internal/item/postgres/store.go:168-174 | The invalid-state answer for a row without its item is unreachable |
| `PostgresRuns.StepRefinesAtomic` | internal/item/postgres/store.go:119-204 | Every statement is one step of the atomic map; entries appear and disappear only at commits |
| `PostgresRuns.TraceExists` | internal/item/postgres/store.go:119-204 | Every run of transactions has such a trace |
| `PostgresRuns.RunRefinesAtomic` | internal/item/postgres/store.go:119-204 | So every run of any number of replicas is a run of the atomic map |
| `PostgresRuns.OneItemPerKey` | internal/item/postgres/store.go:119-204 | While a key's row is there no second item is made for it, replays return its item, and only other fingerprints conflict, acknowledged or not |
| `PostgresRuns.RowsOutliveTheirExpiry` | internal/item/postgres/store.go:46-57 | A committed row goes only in a commit whose clean-up clock had reached its expiry |
| `PostgresRuns.RowExpiresAfterRetention` | internal/item/postgres/store.go:64-68 | The row insert always goes through, and its row expires 24 hours after the clock it read |
| `PostgresRuns.CommittedRowWasStamped` | internal/item/postgres/store.go:191-204 | Every committed row, in every state of every run, was written by a row insert whose clock read exactly 24 hours before the row's expiry |
| `PostgresRuns.CommitsWhatItWrote` | internal/item/postgres/store.go:191-204 | What a transaction commits after its row insert is that row, with the expiry 24 hours after the insert's clock |
| `PostgresRuns.RowStaysStored` | internal/item/postgres/store.go:46-68 | Along every run a committed row and its item stay as written while every committed clean-up read a clock within 24 hours of the row's insert |
| `PostgresRuns.RetryReplaysOrConflicts` | internal/item/postgres/store.go:152-180 | A retry's lookup hits the committed item or conflicts, by fingerprint alone, while all clean-ups, its own included, read clocks within 24 hours of the row's insert |
| `PostgresAnswers.StepRejects` | internal/item/postgres/store.go:143-189 | A statement leaves its transaction with an error if and only if the lock is taken, the row has another fingerprint, or the item ID is in use, and with that error |
| `PostgresAnswers.StepAnswer` | internal/item/postgres/store.go:175-204 | An event ends a transaction with an answer if and only if it is its own and gives it: the new item, the item of the committed row as a replay, the loss of the acknowledgement, the error it was rejected with, or the failure it gave up on |
| `PostgresAnswers.AnswersAreTold` | internal/item/postgres/store.go:119-204 | Along every run a transaction has ended with an answer exactly when one of its own events gave it that answer; answers never change |
| `PostgresAnswers.RollbackTellsTheRejection` | internal/item/postgres/store.go:137-151 | A rollback answers with the error of the statement that failed |
| `PostgresAnswers.CommitTellsTheItem` | internal/item/postgres/store.go:175-204 | Every acknowledged commit tells its client of the item the atomic step made, as new, or found, as a replay |
| `PostgresAnswers.LostCommitTellsTheLoss` | internal/item/postgres/store.go:200-204 | A commit whose acknowledgement is lost answers with the loss, and its entry is in the tables all the same |
| `PostgresAnswers.ConflictIsTold` | internal/item/postgres/store.go:160-163 | A conflict seen at the lookup is what the client is told at the rollback |
| `PostgresAnswers.RetryIsAnswered` | internal/item/postgres/store.go:152-180 | From the lookup to the client: the retry's acknowledged commit or rollback answers with the committed item as a replay or with the conflict error, by fingerprint alone, while all clean-ups read clocks within 24 hours of the row's insert |
| `PostgresAnswers.TransactionsGoOn` | internal/item/postgres/store.go:119-204 | In every state of every run a transaction has ended, after at most seven statements of its own, or another one holds the row or the ID it needs, or it can take its next statement |
| `PostgresRetention.ExpiredRowSurvivesIff` | internal/item/postgres/store.go:46-57 | An expired row can outlive a clean-up if and only if another transaction locks it or at least 100 other expired rows that nobody locks expire no later |
| `PostgresRetention.StaleAnswerIff` | internal/item/postgres/store.go:152-180 | A request whose own row has expired can still be answered from it, as a replay or a conflict by fingerprint, if and only if that condition holds at its clean-up |
| `PostgresRetention.SweptRowIsGone` | internal/item/postgres/store.go:59-63 | Otherwise, whatever the other transactions do in between, the lookup finds no row and the key counts as new |
| `PostgresRetention.StaleReplayIsReachable` | internal/item/postgres/store.go:152-178 | From every reachable state that meets the condition some continuation sends the client a replay of the expired row |
| `PostgresRoutes.CrowdedRoute` | internal/item/postgres/store.go:46-57 | A run from the empty database, for every choice of lock numbers, that ends in such a replay because 100 other rows were due |
| `PostgresRoutes.LockedRoute` | internal/item/postgres/store.go:46-63 | A run from the empty database with a single row that ends in such a replay because another transaction was deleting the row and then gave up |
| `PostgresWaits.WaitsIffHolds` | internal/item/postgres/store.go:46-63 | A transaction waits for another exactly when that one is deleting the row it is about to look up, or has inserted its item ID |
| `PostgresWaits.BlockEachOtherIff` | internal/item/postgres/store.go:152-159 | Two transactions block each other if and only if both have cleaned up and not yet looked up, and each one's row is among those the other is deleting |
| `PostgresWaits.WaiterForWaiterIsSwept` | internal/item/postgres/store.go:152-189 | In longer rings too every transaction is at its lookup |
| `PostgresWaits.BlockedUntilOneGivesUp` | internal/item/postgres/store.go:156-182 | Along every run the two stay blocked, whatever the others do, until one of them is ended |
| `PostgresRoutes.BlockingRoute` | internal/item/postgres/store.go:46-63 | A run from the empty database, whenever two particular keys have different lock numbers, that ends with two retries blocking each other |
| `PostgresRuns.SuccessWasCommitted` | internal/item/postgres/store.go:175-204 | Every successful answer was the transaction's own acknowledged commit, with the matching atomic step, later than any moment at which it was open |
| `PostgresRuns.ClientsGetTheItem` | internal/item/postgres/store.go:119-204 | What clients see: from the commit for a key until its row is removed, every transaction open at that commit or later that succeeds returns that very item, under the fingerprint it was made for |
| `PostgresRuns.LockIdsAreSharedBigints` | internal/item/postgres/store.go:402-407 | The lock number is the first eight bytes of the digest without their sign bit, a signed 64-bit integer, so different keys can share one |
| `PostgresLocks.MirrorStep` | internal/item/postgres/store.go:143-151 | One step under any lock numbers is one step under a lock per key, or none at all when only the number refused the lock |
| `PostgresLocks.SharedLockIdsOnlyRefuse` | internal/item/postgres/store.go:402-407 | Every run under any lock numbers is mirrored, moment by moment, by a run with a lock per key that has the same tables and the same answers; the only differences are try-locks refused by the number alone, which the mirror leaves out, and their ends |
| `Unicode.TextIsUtf8` | internal/item/model.go:75-86 | What is taken for UTF-8 includes the encoding of every sequence of code points, and its rune count is their number |
| `Unicode.Utf8IsText` | internal/item/model.go:75-86 | And it is the encoding of code points only, surrogates and overlong forms excluded |
| `Unicode.SpaceRunes` | internal/item/model.go:72-73 | Of all code points exactly those with the White_Space property are trimmed |
| `Unicode.ControlFreeText` | internal/item/idempotency.go:114-134 | A text is free of control characters exactly when none of its code points is in category Cc |
| `Trimming.TrimSpaceTrims` | internal/item/model.go:72-73 | For any bytes, trimming cuts white space off both ends and leaves a string that neither starts nor ends with any |
| `Trimming.TrimsIsUnique` | internal/item/model.go:72-73 | There is only one such string |
| `JsonStrings.ReadQuoted` | internal/item/idempotency.go:99-102 | Reading what the JSON encoder writes for a UTF-8 text gives back the text and finds its end exactly, whatever follows |
| `JsonStrings.QuotedIsUnambiguous` | internal/item/idempotency.go:143-148 | Two written texts with anything after them are equal only if both parts are equal |
| `JsonStrings.EscapesAre` | internal/item/idempotency.go:99-102 | The bytes that are escaped and how, the three of HTML included; all other ASCII bytes from the space on are written as they are |
| `JsonStrings.InvalidBytesCollapse` | internal/item/idempotency.go:99-102 | The UTF-8 condition is needed: distinct stray bytes are written alike |
| `Fingerprint.CanonicalIsTrimmed` | internal/item/model.go:71-94 | With the two trimmed parts given, the result is exactly: an error naming the name unless it is UTF-8 of 1 to 120 code points, else one naming the description unless it is UTF-8 of at most 2000, else the two parts |
| `Fingerprint.CanonicalIsFixed` | internal/item/model.go:71-94 | The canonical input is the caller's name and description without the white space around them, and is canonical itself |
| `Fingerprint.ValidateIdempotencyKey` | internal/item/idempotency.go:74-89 | The scanning loop accepts exactly the keys of 1 to 255 HTTP token bytes |
| `Fingerprint.InputTextIsUnambiguous` | internal/item/idempotency.go:99-106 | The text behind a fingerprint is equal for two inputs exactly when name and description are equal |
| `Fingerprint.TextsAreJson` | internal/item/idempotency.go:99-151 | For values without escapes the hashed texts are the two JSON objects, name before description and scope before key, the latter after its prefix |
| `Fingerprint.FingerprintIsOfCanonical` | internal/item/idempotency.go:94-108 | Edge padding does not change a fingerprint, and an adapter decodes it back to the digest |
| `Fingerprint.FingerprintsTellInputsApart` | internal/item/idempotency.go:91-108 | Without a collision, two fingerprints are equal exactly when the canonical inputs are |
| `Fingerprint.EffectiveScope` | internal/item/idempotency.go:114-134 | The requested scope is in force exactly when it is non-empty, at most 512 bytes, UTF-8 and free of control characters; otherwise the default is; the one in force is always valid UTF-8 |
| `Fingerprint.UsableScopes` | internal/item/idempotency.go:114-134 | The usable scopes are those of 1 to 512 bytes of code points none of which is a control character |
| `Fingerprint.KeyTextIsUnambiguous` | internal/item/idempotency.go:141-151 | The text behind a storage key determines both scope and key |
| `Fingerprint.StorageKeyIsValid` | internal/item/idempotency.go:151-152 | Every storage key passes the key validation of the adapters |
| `Fingerprint.KeysMeetOnlyInTheirScope` | internal/item/idempotency.go:110-152 | Without a collision, two requests share a record exactly when both scope and client key are equal |
| `Fingerprint.HexRoundTrip` | internal/item/memory/idempotency.go:120-130 | Decoding the hex text of a digest that fits gives the digest back |
| `Fingerprint.HexTextIsDigits` | internal/item/memory/idempotency.go:120-130 | Hex text decodes exactly when it consists of hex digits of either case |
| `KeyedCreate.Version4InText` | internal/item/idempotency.go:185 | The accepted IDs are those whose text has a 4 for the version and 8, 9, a or b for the variant |
| `KeyedCreate.AdapterRefusesExactly` | internal/item/memory/idempotency.go:107-130 | The adapter refuses exactly a bad key, and then the nil ID or a fingerprint that is not 64 hex digits, each with its error |
| `KeyedCreate.ServiceIsNeverRefused` | internal/item/memory/idempotency.go:107-118 | What the service hands over always passes the adapter's validation |
| `KeyedCreate.CreateIdempotent` | internal/item/idempotency.go:158-204 | Refused calls give the first failing check's error and change nothing; a new item is made exactly when the contexts are live, nothing is retained or in flight for the key, there is a slot and the ID is unused, and it carries the generated ID, the clock's time and the caller's name and description without the white space around them; without a hash collision every success is made of that input, and a retained record yields a replay if its item is and a conflict otherwise; without a record every failure has its error; every record keeps standing for the input of its item |
| `KeyedCreate.Prepare` | internal/item/idempotency.go:158-197 | The service's checks in order; what it hands over is the digest of scope and key, the fingerprint digest, and a candidate with the generated ID, the time and the trimmed texts of the caller |
| `KeyedCreate.Proceed` | internal/item/idempotency.go:197-203 | The same contract once digests and candidate are worked out, with fingerprints read back as inputs unless the hash collides |
| `KeyedCreate.HandOver` | internal/item/idempotency.go:197-203 | The adapter's side of that contract on decoded digests, with the last check of its answer: a new item exactly when the store admits it, replay or conflict by input otherwise |
| `KeyedCreate.AddingKeepsFaithful` | internal/item/memory/idempotency.go:84-92 | Adding an item and its record leaves every older record standing for its own item's input |
| `KeyedCreate.MemoryRetryIsDecidedByInput` | internal/item/idempotency.go:91-108 | In every interleaving of the memory adapter a retry within the retention is answered with the committed item exactly when its input, white space around it aside, is what that item was made of, and with a conflict otherwise |
| `KeyedCreate.PostgresRetryIsDecidedByInput` | internal/item/idempotency.go:91-108 | The same for the client of every run of PostgreSQL transactions, within 24 hours of the row's insert |
| `Lexicographic.LessExactly` | internal/item/memory/store.go:195-200 | The byte order is decided by the first difference, an end counting as smallest |
| `Lexicographic.TextOrderIsByteOrder` | internal/item/memory/store.go:144-149 | Comparing canonical UUID texts (section 3 of RFC 4122) is comparing their bytes |
| `Listing.ComparisonsAgree` | internal/item/memory/store.go:195-200 | The comparisons of the offset and the cursor listing are the same order |
| `Listing.DescendingIsUnique` | internal/item/memory/store.go:144-149 | A set of items has only one strictly newest-first arrangement |
| `Listing.SortedScanLists` | internal/item/memory/store.go:137-149 | Whatever order the map is iterated in, sorting yields the listing |
| `Listing.NewestFirst` | internal/item/memory/store.go:144-149 | In the listing no row is older than a later one, and rows of one instant go from the largest ID down |
| `Listing.ListingSize` | internal/item/memory/store.go:137-149 | The listing has one row per stored item |
| `Listing.BoundarySplits` | internal/item/memory/store.go:205-215 | The boundary scan splits an ordered list exactly at the position |
| `Listing.SuffixListsAfter` | internal/item/memory/store.go:205-225 | The rows from the boundary on list exactly the items strictly after the position |
| `MemoryStore.Store.constructor` | internal/item/memory/store.go:55-68 | A new store holds nothing and keeps its configured bound |
| `MemoryStore.Store.Create` | internal/item/memory/store.go:74-94 | Adds exactly the given item, or reports the conflict or context error and changes nothing |
| `MemoryStore.Store.Get` | internal/item/memory/store.go:97-118 | Returns the stored item exactly for a live context and a non-nil stored ID; otherwise the context error, the invalid ID or not found, in that order |
| `MemoryStore.Store.CleanupIdempotencyLocked` | internal/item/memory/idempotency.go:147-153 | The deleting loop removes exactly the records at or past their expiry |
| `MemoryStore.Store.Reserve` | internal/item/memory/idempotency.go:39-69 | The section changes the store and answers exactly as the protocol's reserve step |
| `MemoryStore.Store.GetItem` | internal/item/memory/idempotency.go:170-184 | Replays the stored item exactly when the context is live and the ID is stored; a cancelled or timed-out context is reported as such, everything else as invalid state; it never lets the caller go on to create |
| `MemoryStore.Store.ClearInFlight` | internal/item/memory/idempotency.go:132-136 | Removes the key's marker and nothing else |
| `MemoryStore.Store.Commit` | internal/item/memory/idempotency.go:84-92 | Turns the marker into a record that expires 24 hours after the clock reading |
| `MemoryStore.Store.CreateIdempotent` | internal/item/memory/idempotency.go:24-98 | An uninterrupted call leaves no marker; a fresh key with a slot creates, unless the insert fails; a key in flight and a full table are refused; replays change nothing but expired records; creations add exactly the item and its record; a call cancelled after the insert still leaves both; a retained record decides between replay, conflict, the context error and invalid state |
| `MemoryStore.Store.Scan` | internal/item/memory/store.go:188-193 | Collects every stored item exactly once |
| `MemoryStore.Store.List` | internal/item/memory/store.go:123-165 | Returns the requested window of the unique newest-first listing, or the right error |
| `MemoryStore.Store.ListAfter` | internal/item/memory/store.go:172-226 | Returns the first rows of the listing of the items strictly after the position, or the right error |
| `MemoryStore.Store.FindBoundary` | internal/item/memory/store.go:205-215 | The loop finds the first row below the position |
| `MemoryStore.Store.CopyPage` | internal/item/memory/store.go:216-225 | Cuts the window out of the rows without overrunning them |
| `CursorWalk.PageShowsItsRange` | internal/item/cursor.go:505-543 | A page shows an item exactly when it is stored, lies after the position resumed from and, if there is more, not after the page's last row |
| `CursorWalk.LaterPagesLieAfter` | internal/item/cursor.go:509-534 | Every row of a later page lies after the last row of every earlier page |
| `CursorWalk.WalkIsDescending` | internal/item/cursor.go:505-543 | A walk with arbitrary inserts between pages returns strictly descending rows, so no repetition |
| `CursorWalk.WalkLosesNothing` | internal/item/cursor.go:505-543 | A completed walk returns every item that was stored when it began |
| `CursorWalk.InsertsAboveStayOut` | internal/item/memory/store.go:205-225 | An item at or above the place already reached never shows on a later page |
| `CursorWalk.WalkInventsNothing` | internal/item/memory/store.go:188-225 | Every returned row was stored when its page was read |
| `CursorWalk.DecodedIsEncoded` | internal/item/cursor.go:348-402 | An accepted token gives the position it was issued for |
| `CursorWalk.FollowingTokensIsAWalk` | internal/item/cursor.go:485-537 | Pages fetched by following accepted tokens form such a walk |
| `CursorWalk.CursorContinuesOffset` | internal/item/service.go:187-202 | For a fixed store, reading after the last row of an offset page is reading at the next offset |
| `CursorWalk.InsertOnTopShiftsOffsets` | internal/item/memory/store.go:154-163 | Offsets are not stable: an item inserted on top moves every row down by one |
| `ItemService.RequestedAfterDecodes` | internal/item/cursor.go:485-503 | The empty cursor asks for the first page, and any other resumes after the position it decodes to or gives the decoder's error |
| `ItemService.LookAhead` | internal/item/service.go:167-180 | One row more than asked for decides exactly whether there is more, and the rest is the page |
| `ItemService.ListCursor` | internal/item/cursor.go:472-543 | A success has the page size asked for, from 1 to 100, or 20 when none is, and as many rows as that or as there are after the requested position; it is a page of the walk there, with the token of its last row exactly when there is more; it succeeds exactly when the contexts are live, the request is acceptable and no cursor is needed or the last row can be encoded; every other case has its error |
| `ItemService.List` | internal/item/service.go:156-204 | The same for the rows from the requested offset on, with a correct "more", and no cursor without a codec |
| `ItemService.PageAfter` | internal/item/cursor.go:505-543 | The part of the contract behind the checks: rows, size, "more", token, and the errors of fetching, encoding and the end in their order |
| `ItemService.CutPage` | internal/item/service.go:175-202 | From one row more than asked for: the page, a correct "more" and its cursor, and an error exactly when a needed cursor cannot be made |
| `ItemService.NextCursor` | internal/item/cursor.go:529-538 | Succeeds exactly when there is no more or the last row can be encoded, and then hands out that row's token exactly when there is more |
| `ItemService.CursorOfOffsetPageContinuesIt` | internal/item/service.go:187-202 | For an unchanged store, following an offset page's cursor shows the rows and the "more" of the next offset page |
| `TimeWire.ReadTimeExactly` | internal/item/cursor.go:447-461 | A time field reads as an instant exactly when it is that instant's marshalled form |
| `TimeWire.MarshalIsNotNoTime` | internal/item/cursor.go:437-445 | No marshalled instant is the all-zero field that means "none" |
| `TimeWire.AddIsExact` | internal/item/cursor.go:321-325 | In nanoseconds, adding a lifetime moves the instant by exactly that lifetime, as far as 64-bit seconds go |
| `Base64.RoundTrip` | internal/item/cursor.go:335-338 | Decoding the unpadded base64url text of any bytes gives the bytes back (section 5 of RFC 4648) |
| `Base64.EncodedLength` | internal/item/cursor.go:338-341 | The text has four characters for three bytes, rounded up |
| `Base64.DecoderAcceptsVariants` | internal/item/cursor.go:363-368 | The decoder accepts different texts for the same bytes, so the re-encoding check is needed (section 3.5 of RFC 4648) |
| `CursorCodec.RangeCheckIsNormalization` | internal/item/cursor.go:109-126 | The range check accepts exactly instants with less than a second of nanoseconds |
| `CursorCodec.ValidPositions` | internal/item/cursor.go:109-126 | A position is valid exactly when its ID is not nil, its time is not the zero time and its nanoseconds are less than a second |
| `CursorCodec.ValidConfigs` | internal/item/cursor.go:286-300 | The accepted configurations: lifetimes up to thirty days, purposes of 1 to 128 bytes of code points none of which is a control character |
| `CursorCodec.EncodesExactly` | internal/item/cursor.go:305-325 | In nanoseconds, when a valid position can be encoded and which error it gets otherwise: the clock is set, the expiry is past the clock, and the row is from before the expiry |
| `CursorCodec.TokenIsShort` | internal/item/cursor.go:338-341 | Every token is within the size bound, so encoding never fails for its length |
| `CursorCodec.RoundTrip` | internal/item/cursor.go:305-402 | For all positions and clocks, decoding an issued token gives the position, exactly unless it expired; the zero-time expiry counts as none |
| `CursorCodec.RoundTripAfterZeroTime` | internal/item/cursor.go:305-402 | With clocks after the zero time the position comes back exactly when there is no lifetime or it has not passed |
| `CursorCodec.ZeroTimeExpiryNeverExpires` | internal/item/cursor.go:392-400 | A token whose expiry is the zero time is accepted at every later clock |
| `CursorCodec.AcceptedIsCanonical` | internal/item/cursor.go:352-391 | Every accepted token is the prefix plus the encoding of its payload and signature, and its payload is determined by position and expiry |
| `CursorCodec.AcceptedExactly` | internal/item/cursor.go:352-391 | A token is accepted for a position and an expiry if and only if the position is valid and the token is the one they determine, or without expiry the one with the all-zero field |
| `CursorCodec.TokensAreUnique` | internal/item/cursor.go:352-391 | Two accepted tokens with the same position and the same non-zero expiry are the same string |
| `CursorCodec.TwoTokensWithoutExpiry` | internal/item/cursor.go:437-445 | Without expiry there are two different accepted tokens for a position |
| `CursorCodec.MessagesAreUnambiguous` | internal/item/cursor.go:412-418 | The signed message determines purpose and payload |
| `CursorCodec.PurposesSeparateTokens` | internal/item/cursor.go:286-300 | A token accepted under two purposes of one key would exhibit a collision of the keyed hash |
| `CursorCodec.CopyInto` | internal/item/cursor.go:433 | Copying into a buffer replaces exactly that stretch of it |
| `CursorCodec.PutTime` | internal/item/cursor.go:422-435 | Writes exactly the fifteen bytes of the instant and no other byte of the buffer |
| `CursorCodec.FillPayload` | internal/item/cursor.go:316-333 | The buffer ends up as version, position time, expiry or zeros, and ID |
| `CursorCodec.EncodeToken` | internal/item/cursor.go:305-343 | Builds the specified token, always within the size bound, or gives the specified error |
| `RateLimit.OldestIsUnique` | pkg/ratelimit/ratelimit.go:327-340 | Among resident buckets only one key is oldest by last use and then name |
| `RateLimit.OldestOfTwo` | pkg/ratelimit/ratelimit.go:330-336 | Comparing one more bucket with the oldest so far gives the oldest of the larger set |
| `RateLimitRuns.CallKeepsInv` | pkg/ratelimit/ratelimit.go:206-282 | Every call keeps tokens between zero and capacity, last use equal to last refill, valid keys, and the client bound |
| `RateLimitRuns.RunKeepsInv` | pkg/ratelimit/ratelimit.go:206-340 | So does every run, under both overflow policies and with any clock |
| `RateLimitRuns.CallBalance` | pkg/ratelimit/ratelimit.go:247-281 | What a call grants is paid for by the bucket's level, tokens less what time has refilled |
| `RateLimitRuns.ResidentBalance` | pkg/ratelimit/ratelimit.go:247-281 | Over any stretch in which the bucket stays resident, the total granted is at most the fall of its level |
| `RateLimitRuns.GrantsAreBounded` | pkg/ratelimit/ratelimit.go:247-281 | Between two calls on a resident key the total granted is at most capacity plus the refill between their effective times, even if the clock moves backwards |
| `RateLimitRetry.DurationIsExact` | pkg/ratelimit/ratelimit.go:366-375 | Unless clipped, the computed wait is the shortest number of nanoseconds that gains the missing tokens |
| `RateLimitRetry.RunKeepsUp` | pkg/ratelimit/ratelimit.go:247-261 | Over any stretch without grants the bucket holds at least what uninterrupted refill would give |
| `RateLimitRetry.RetryAfterIsExact` | pkg/ratelimit/ratelimit.go:263-281 | After a denial, with the bucket resident and nothing granted, the same cost is served exactly from RetryAfter past the denial on, and denied at every nanosecond before |
| `RateLimitRetry.DenialNeedsResident` | pkg/ratelimit/ratelimit.go:221-245 | Only a resident bucket can be short: a new key is never rate limited |
| `RateLimitRetry.HeaderCoversRetryAfter` | internal/controller/http/security.go:141-153 | The header is the least positive whole number of seconds that covers the wait (section 10.2.3 of RFC 9110) |
| `RateLimitDecisions.ValidKeys` | pkg/ratelimit/ratelimit.go:342-350 | The counted keys are those of 1 to 256 bytes of code points none of which is white space or a control character |
| `RateLimitDecisions.ReasonIs` | pkg/ratelimit/ratelimit.go:206-238 | The reason of every decision; in particular a call is turned away for want of a slot exactly when newcomers are rejected, its key has no live bucket and as many other live buckets as the bound are there |
| `RateLimitDecisions.DecisionFits` | pkg/ratelimit/ratelimit.go:206-282 | Only answers of a bucket carry a reset and a remaining count, and exactly a rate-limited call a positive wait |
| `RateLimitDecisions.RemainingIsWhatIsLeft` | pkg/ratelimit/ratelimit.go:263-281 | Whatever a call finds, remaining is within the capacity, at most the tokens it leaves up to the rounding slack, and at least every whole number of tokens it leaves |
| `RateLimitDecisions.RemainingIsGranted` | pkg/ratelimit/ratelimit.go:263-281 | Along every run a further call at the same effective time, with the bucket there and nothing granted in between, is granted only costs up to remaining, and exactly those the tokens cover |
| `RateLimitDecisions.ResetIsWhenFullAgain` | pkg/ratelimit/ratelimit.go:377-379 | Unless clipped, reset is the first instant at which the bucket the call leaves, not charged again, is full |
| `RateLimitDecisions.GainPerSecond` | pkg/ratelimit/ratelimit.go:254-258 | In n seconds n times the rate comes in |
| `RateLimitDecisions.LongGapsAreClipped` | pkg/ratelimit/ratelimit.go:254-258 | A gap beyond the largest duration refills no more than that duration |
| `RateLimitDecisions.GrantedIffNoWindowIsOverdrawn` | pkg/ratelimit/ratelimit.go:221-281 | From the call that makes a bucket on, a call is granted if and only if no window since then, opened full at some call, is overdrawn by it: grants including this one at most capacity plus the refill of the time that passed, whatever the clock readings and the other keys do |
| `RateLimitDecisions.EveryResidentCallIsDecided` | pkg/ratelimit/ratelimit.go:221-281 | Every resident bucket has such a beginning, so that is the rule for every call a resident bucket answers |
| `RateLimitReference.ForgottenBucketIsFull` | pkg/ratelimit/ratelimit.go:309-311 | If rate times time to live reaches capacity, an expired bucket would have been full |
| `RateLimitReference.CallAgrees` | pkg/ratelimit/ratelimit.go:221-282 | A call on the bounded limiter decides as a limiter that never forgets, or denies for want of a slot, and the two stay related |
| `RateLimitReference.ExpiryIsUnobservable` | pkg/ratelimit/ratelimit.go:221-325 | Over every run with non-decreasing clocks and rejection of new keys at the bound, every other decision is that of the limiter that never forgets |
| `RateLimitReference.ShortExpiryIsObservable` | pkg/ratelimit/ratelimit.go:309-325 | If an idle bucket cannot refill within its time to live, two calls tell the two limiters apart, for every such configuration and key |
| `RateLimitReference.OvertakenReadingIsObservable` | pkg/ratelimit/ratelimit.go:217-226 | Whatever the rate, a clean-up whose later reading overtakes a call makes the two limiters differ |
| `RateLimitReference.EvictionIsObservable` | pkg/ratelimit/ratelimit.go:227-245 | With eviction, for every client bound and with clocks that do not decrease, as many other keys as the bound admits make the two limiters differ |
| `Limiter.Limiter.AllowN` | pkg/ratelimit/ratelimit.go:206-282 | The object's new map and decision are those of the specification whose runs the lemmas describe; what it reports as remaining is the whole part of the tokens it leaves |
| `Limiter.Limiter.MakeRoomLocked` | pkg/ratelimit/ratelimit.go:228-238 | Makes a slot as specified: clean up only at the bound, then reject or evict |
| `Limiter.Limiter.ChargeLocked` | pkg/ratelimit/ratelimit.go:247-281 | Refill and charge in place as specified, clock steps back included; the remaining count is the whole part of the tokens left |
| `Limiter.Limiter.CleanupLocked` | pkg/ratelimit/ratelimit.go:313-325 | Removes exactly the expired buckets and counts them |
| `Limiter.Limiter.EvictOldestLocked` | pkg/ratelimit/ratelimit.go:327-340 | Removes exactly the unique oldest bucket, whatever order the map is iterated in |
| `Limiter.Limiter.Cleanup` | pkg/ratelimit/ratelimit.go:287-295 | Removes exactly the expired buckets and reports how many |
| `Limiter.Limiter.Len` | pkg/ratelimit/ratelimit.go:298-307 | Counts what is left after dropping the expired buckets |
| `Replacements.Normalize` | cmd/bootstrap/main.go:486-506 | The list holds exactly one entry per effective pattern, the first one given, strictly ranked by length and then bytes |
| `Replacements.RulesAreFirstEntries` | cmd/bootstrap/main.go:486-499 | A pattern is replaced by a text if and only if it is not empty and that is the text of its first entry whose text differs from the pattern |
| `Replacements.DistinctEntriesAreRules` | cmd/bootstrap/main.go:486-499 | With distinct patterns the rules are exactly the effective entries |
| `Replacements.ReplaceOnce` | cmd/bootstrap/main.go:570-593 | The offset-and-buffer loop terminates and writes exactly the specified scan, for any list without empty patterns |
| `Replacements.FirstOfRankedIsLongest` | cmd/bootstrap/main.go:500-505 | In a normalized list the first entry that matches is the unique longest pattern that matches |
| `Replacements.PiecesCoverTheSource` | cmd/bootstrap/main.go:579-591 | The pieces of any leftmost-longest cutting, put together, are the original |
| `Replacements.PiecesAreLeftmostLongest` | cmd/bootstrap/main.go:579-591 | Every replaced piece is the longest pattern at its place, and a byte is copied only where no pattern starts |
| `Replacements.LeftmostLongestIsUnique` | cmd/bootstrap/main.go:567-569 | There is only one such way to cut the original |
| `Replacements.ScanIsLeftmostLongest` | cmd/bootstrap/main.go:567-593 | One pass with a normalized list writes the output of exactly these pieces: written text is never scanned again |
| `Replacements.Rewrite` | cmd/bootstrap/main.go:483-593 | Normalizing and one pass give the leftmost-longest rewriting of the original input |
| `Replacements.NoOccurrenceNoChange` | cmd/bootstrap/main.go:570-593 | An input in which no pattern occurs is unchanged |
| `Replacements.OrderDoesNotMatter` | cmd/bootstrap/main.go:486-506 | With distinct patterns, any two orders of the same entries stand for the same rules |
| `Routes.ValidPlaceholder` | pkg/metrics/metrics.go:203-218 | The loop decides non-empty names of letters, digits, underscore and dash |
| `Routes.ValidLiteral` | pkg/metrics/metrics.go:220-232 | The loop decides non-empty literals of unreserved bytes |
| `Routes.LooksLikeRawSegment` | pkg/metrics/metrics.go:234-257 | The two loops decide all-digit or UUID-shaped segments |
| `Routes.CanonicalizeSegment` | pkg/metrics/metrics.go:162-183 | One round of the segment loop: the canonical segment, or a refusal |
| `Routes.CanonSpells` | pkg/metrics/metrics.go:162-183 | A segment is kept exactly when it spells a parameter, as :name, *name or {name}, the last shown as :name, or is a word of unreserved bytes that is no number, no UUID shape and no dot path |
| `Routes.NormalizeSegments` | pkg/metrics/metrics.go:161-185 | The loop that rewrites segments in place yields the joined canonical path exactly when every segment has a canonical form |
| `Routes.NormalizeRoute` | pkg/metrics/metrics.go:145-186 | The whole function computes the specified label |
| `Routes.EveryResultIsALabel` | pkg/metrics/metrics.go:145-186 | For every string the result is "unmatched", "/" or a path of at most 128 bytes of canonical segments: placeholders, or literals that are no number, no UUID shape and no dot path |
| `Routes.LabelsAreFixed` | pkg/metrics/metrics.go:145-186 | Conversely every such label is its own result, so the vocabulary is exactly the image |
| `Routes.NormalizeIsIdempotent` | pkg/metrics/metrics.go:145-186 | Normalizing twice is normalizing once, for every string |
| `Routes.PatternsAreKept` | pkg/metrics/metrics.go:157-185 | Every path of keepable segments within the length, with or without a final slash, gets its canonical form |
| `Routes.AcceptedIsAPattern` | pkg/metrics/metrics.go:146-185 | Every route that is not collapsed is such a path, up to surrounding space |
| `Routes.NormalizesExactly` | pkg/metrics/metrics.go:145-186 | White space around it aside, the root stays, a path of keepable segments of at most 128 bytes gets their labels, and everything else is unmatched |
| `Routes.SplitJoin` | pkg/metrics/metrics.go:160-185 | Splitting a joined path gives back its segments |
| `Bearer.ValidBearerToken` | pkg/auth/auth.go:349-374 | The nested loops decide the b64token grammar (section 2.1 of RFC 6750) exactly |
| `Bearer.AcceptsExactly` | pkg/auth/auth.go:292-334 | The parser returns a token exactly when there is one header value and it is the scheme in any case, one space, and that token, in the grammar and at most 4096 bytes |
| `Bearer.RefusesExactly` | pkg/auth/auth.go:292-334 | Which of the five errors a refused header gets, each if and only if: no value, several, more than 4103 bytes, a pair under another scheme, anything else that carries no token |
| `Bearer.BearerNames` | pkg/auth/auth.go:319-322 | The scheme is "Bearer" in any mixture of cases |
| `Bearer.RoundTrip` | pkg/auth/auth.go:292-334 | Every token of the grammar that fits comes back from its "Bearer" header |
| `GoStrings.TrimSpaceIdempotent` | internal/item/model.go:72-73 | Trimming white space, on any bytes, is idempotent |

## Left out

- KeyedCreate.HandOver: states the contract of one uninterrupted call for requests the adapter does not refuse; interleavings are covered by the protocol lemmas, and `KeyedCreate.ServiceIsNeverRefused` shows that the service's requests are never refused.
- MemoryStore.Store.CreateIdempotent: the nil-ID answer after a successful insert is not modelled, because validation excludes nil IDs before it.
- CursorCodec.EncodeToken: the marshalling errors of `time.Time` are not modelled, since UTC instants have none.
- Limiter.Limiter.AllowN: rounding of `float64` and the nil limiter are not modelled.
- Replacements.Rewrite: starts from a list of replacements; reading metadata, building that list (`makeReplacements`, `projectSlug`) and writing files are left out.
- SHA-256, HMAC, random UUIDs and constant-time comparison: library code, given functions here.
- PostgreSQL listing queries, connection errors and error texts: database code; the transaction of the keyed create is modelled.
- Plain `Service.Create` and `Service.Get`: validation followed by one store call.
- HTTP handlers, middleware, JSON bodies, health probes and access logs: framework code.
- Configuration, telemetry, logging, migrations and process lifecycle: independent checks and wiring.
- Prometheus collectors and the method and status labels of the metrics: only the route label has a law of its own.
- Principals, digests and scopes of the auth package beyond header parsing: lookups and single comparisons.
