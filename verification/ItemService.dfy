/** The two list operations of the item service over the in-memory store. */
module ItemService {
  import opened Items
  import opened Listing
  import opened TimeWire
  import opened CursorCodec
  import opened CursorWalk
  import opened MemoryStore
  import Base64

  /** The readings of the request context: at entry, twice in the store, after the rows, and at the end. */
  datatype Contexts = Contexts(
    entry: Option<Error>, store: Option<Error>, late: Option<Error>, fetched: Option<Error>, end: Option<Error>)
  {
    predicate Live() {
      entry.None? && store.None? && late.None? && fetched.None? && end.None?
    }

    /** The first error read once the request is checked and before a keyset page is cut. */
    function WhileFetching(): Option<Error> {
      if store.Some? then store else if late.Some? then late else fetched
    }
  }

  datatype CursorPage = CursorPage(items: seq<Item>, limit: int, hasMore: bool, nextCursor: string)

  datatype OffsetPage = OffsetPage(items: seq<Item>, limit: int, offset: int, hasMore: bool, nextCursor: string)

  function EffectiveLimit(limit: int): int {
    if limit == 0 then DEFAULT_PAGE_SIZE else limit
  }

  /** The page size a request asks for: its own, from 1 to 100, or 20 when it names none. */
  predicate Asks(limit: int, size: int) {
    0 <= limit <= 100 && (limit > 0 ==> size == limit) && (limit == 0 ==> size == 20)
  }

  /** As many rows as asked for, or as there are. */
  predicate Fills(rows: seq<Item>, size: int, available: int) {
    |rows| == if available <= 0 then 0 else if available < size then available else size
  }

  /** What time.Time values are: instants with 64-bit seconds. */
  predicate AllOnWire(items: map<Uuid, Item>) {
    forall id :: id in items ==> OnWire(items[id].createdAt)
  }

  /** The position a request's cursor asks to resume after; the empty cursor asks for the first page. */
  function RequestedAfter(codec: Codec, cursor: string, presented: Instant): Result<Option<Position>> {
    if cursor == "" then Ok(None)
    else if |cursor| > MAX_CURSOR_BYTES then Err(InvalidCursor)
    else
      match Decode(codec, cursor, presented)
      case Err(error) => Err(error)
      case Ok(p) => Ok(Some(p))
  }

  /** A cursor resumes after the position it decodes to, and its error is the decoder's. */
  lemma RequestedAfterDecodes(codec: Codec, cursor: string, presented: Instant)
    ensures RequestedAfter(codec, "", presented) == Ok(None)
    ensures cursor != "" ==>
              match Decode(codec, cursor, presented)
              case Ok(p) => RequestedAfter(codec, cursor, presented) == Ok(Some(p))
              case Err(error) => RequestedAfter(codec, cursor, presented) == Err(error)
  {
  }

  lemma DecodedIsValid(codec: Codec, cursor: string, presented: Instant)
    requires Decode(codec, cursor, presented).Ok?
    ensures ValidatePosition(Decode(codec, cursor, presented).value).None?
  {
    var (p, e) := Open(codec, cursor).value;
    var wire := Base64.Decode(cursor[|PREFIX|..]).value;
    OpenPayloadIsCanonical(wire[..PAYLOAD_BYTES], p, e);
  }

  lemma RowsAreOnWire(items: map<Uuid, Item>, after: Option<Position>, offset: nat, limit: nat)
    requires Keyed(items) && AllOnWire(items)
    ensures forall x :: x in Window(ListingOf(After(items, after)), offset, limit) ==> OnWire(x.createdAt)
  {
    var listing := ListingOf(After(items, after));
    forall x | x in Window(listing, offset, limit) ensures OnWire(x.createdAt) {
      assert x in listing;
      assert items[x.id] == x;
    }
  }

  /** One row more than asked for tells whether there is more, and the rest is the page. */
  lemma LookAhead(rows: seq<Item>, offset: nat, limit: nat)
    ensures var more := Window(rows, offset, limit + 1);
            && (|more| > limit <==> |rows| > offset + limit)
            && (if |more| > limit then more[..limit] else more) == Window(rows, offset, limit)
  {
  }

  /** The cursor of a page: the token for its last row when there is more. */
  predicate RightCursor(codec: Codec, items: seq<Item>, hasMore: bool, nextCursor: string, issued: Instant)
    requires Normalized(issued)
  {
    if !hasMore then nextCursor == ""
    else
      && items != []
      && OnWire(items[|items| - 1].createdAt)
      && Encode(codec, KeyOf(items[|items| - 1]), issued) == Ok(nextCursor)
  }

  /** The page at `offset` is the last one, or its last row can be named by a token. */
  predicate CanContinue(codec: Codec, listing: seq<Item>, offset: nat, limit: nat, issued: Instant)
    requires Normalized(issued) && limit > 0
  {
    |listing| > offset + limit ==> EncodeError(codec, KeyOf(listing[offset + limit - 1]), issued).None?
  }

  /** The cursor both listings hand out. */
  method NextCursor(codec: Codec, rows: seq<Item>, hasMore: bool, issued: Instant) returns (r: Result<string>)
    requires Normalized(issued) && (hasMore ==> rows != [] && OnWire(rows[|rows| - 1].createdAt))
    ensures r.Ok? ==> RightCursor(codec, rows, hasMore, r.value, issued)
    ensures r.Ok? <==> !hasMore || EncodeError(codec, KeyOf(rows[|rows| - 1]), issued).None?
    ensures r.Err? ==> r == Err(CursorState)
  {
    if !hasMore {
      return Ok("");
    }
    var token := EncodeToken(codec, KeyOf(rows[|rows| - 1]), issued);
    if token.Err? {
      return Err(CursorState);
    }
    return token;
  }

  /** The rows of a page, whether there is more, and the cursor for it. */
  datatype Cut = Cut(rows: seq<Item>, hasMore: bool, nextCursor: string)

  lemma CutRows(listing: seq<Item>, offset: nat, size: nat, more: seq<Item>, rows: seq<Item>, hasMore: bool)
    requires size > 0 && more == Window(listing, offset, size + 1) && hasMore == (|more| > size)
    requires rows == if hasMore then more[..size] else more
    ensures rows == Window(listing, offset, size) && hasMore == (|listing| > offset + size)
    ensures hasMore ==> rows != [] && rows[|rows| - 1] == listing[offset + size - 1] && rows[|rows| - 1] in more
  {
    LookAhead(listing, offset, size);
    if hasMore {
      LastOfWindow(listing, offset, size);
      assert rows[|rows| - 1] == more[size - 1];
    }
  }

  lemma PageFills(items: map<Uuid, Item>, offset: nat, size: nat)
    requires Keyed(items)
    ensures Fills(Window(ListingOf(items), offset, size), size, |items| - offset)
    ensures |ListingOf(items)| == |items|
  {
    ListingSize(items);
  }

  /** Drops the look-ahead row and makes the cursor; without a codec there is none. */
  method CutPage(
      codec: Option<Codec>, more: seq<Item>, size: nat, issued: Instant, ghost listing: seq<Item>, ghost offset: nat)
    returns (r: Result<Cut>)
    requires Normalized(issued) && size > 0 && more == Window(listing, offset, size + 1)
    requires forall x :: x in more ==> OnWire(x.createdAt)
    ensures r.Ok? <==> codec.None? || CanContinue(codec.value, listing, offset, size, issued)
    ensures r.Err? ==> r == Err(CursorState)
    ensures r.Ok? ==>
              && r.value.rows == Window(listing, offset, size)
              && r.value.hasMore == (|listing| > offset + size)
              && (codec.None? ==> r.value.nextCursor == "")
              && (codec.Some? ==> RightCursor(codec.value, r.value.rows, r.value.hasMore, r.value.nextCursor, issued))
  {
    var rows, hasMore := more, |more| > size;
    if hasMore {
      rows := rows[..size];
    }
    CutRows(listing, offset, size, more, rows, hasMore);
    if codec.None? {
      return Ok(Cut(rows, hasMore, ""));
    }
    var nextCursor := NextCursor(codec.value, rows, hasMore, issued);
    if nextCursor.Err? {
      return Err(nextCursor.error);
    }
    return Ok(Cut(rows, hasMore, nextCursor.value));
  }

  /** One keyset page. A success is a visit of the store at the requested position, with the cursor for the next. */
  method ListCursor(store: Store, codec: Option<Codec>, ctx: Contexts, limit: int, cursor: string,
                    presented: Instant, issued: Instant)
    returns (r: Result<CursorPage>)
    requires store.Valid() && AllOnWire(store.items) && Normalized(issued)
    ensures r.Ok? ==>
              && ctx.Live() && codec.Some? && RequestedAfter(codec.value, cursor, presented).Ok?
              && Asks(limit, r.value.limit)
              && IsVisit(Visit(store.items, RequestedAfter(codec.value, cursor, presented).value,
                               r.value.limit, r.value.items, r.value.hasMore))
              && Fills(r.value.items, r.value.limit,
                       |After(store.items, RequestedAfter(codec.value, cursor, presented).value)|)
              && RightCursor(codec.value, r.value.items, r.value.hasMore, r.value.nextCursor, issued)
    ensures ctx.entry.Some? ==> r == Err(ctx.entry.value)
    ensures ctx.entry.None? && !(0 <= limit <= 100) ==> r == Err(InvalidInput("limit"))
    ensures ctx.entry.None? && 0 <= limit <= 100 && codec.None? ==> r == Err(CursorUnavailable)
    ensures ctx.entry.None? && 0 <= limit <= 100 && codec.Some?
            && RequestedAfter(codec.value, cursor, presented).Err? ==>
              r == Err(RequestedAfter(codec.value, cursor, presented).error)
    ensures forall size :: ctx.entry.None? && Asks(limit, size) && codec.Some?
                           && RequestedAfter(codec.value, cursor, presented).Ok? ==>
              var listing := ListingOf(After(store.items, RequestedAfter(codec.value, cursor, presented).value));
              if ctx.WhileFetching().Some? then r == Err(ctx.WhileFetching().value)
              else if !CanContinue(codec.value, listing, 0, size, issued) then r == Err(CursorState)
              else if ctx.end.Some? then r == Err(ctx.end.value)
              else r.Ok?
  {
    if ctx.entry.Some? {
      return Err(ctx.entry.value);
    }
    var size := EffectiveLimit(limit);
    if size < 0 || size > MAX_PAGE_SIZE {
      return Err(InvalidInput("limit"));
    }
    if codec.None? {
      return Err(CursorUnavailable);
    }
    var requested := RequestedAfter(codec.value, cursor, presented);
    if requested.Err? {
      return Err(requested.error);
    }
    if cursor != "" {
      DecodedIsValid(codec.value, cursor, presented);
    }
    r := PageAfter(store, codec.value, ctx, size, requested.value, issued);
  }

  /** The page of a checked request: the rows after a position, and the cursor for the next. */
  method PageAfter(
      store: Store, codec: Codec, ctx: Contexts, size: nat, after: Option<Position>, issued: Instant)
    returns (r: Result<CursorPage>)
    requires store.Valid() && AllOnWire(store.items) && Normalized(issued)
    requires 0 < size <= MAX_PAGE_SIZE && (after.Some? ==> ValidatePosition(after.value).None?)
    ensures r.Ok? ==>
              && ctx.store.None? && ctx.late.None? && ctx.fetched.None? && ctx.end.None? && r.value.limit == size
              && IsVisit(Visit(store.items, after, size, r.value.items, r.value.hasMore))
              && Fills(r.value.items, size, |After(store.items, after)|)
              && RightCursor(codec, r.value.items, r.value.hasMore, r.value.nextCursor, issued)
    ensures r.Ok? <==>
              && ctx.WhileFetching().None? && ctx.end.None?
              && CanContinue(codec, ListingOf(After(store.items, after)), 0, size, issued)
    ensures r.Err? ==>
              r.error == if ctx.WhileFetching().Some? then ctx.WhileFetching().value
                         else if !CanContinue(codec, ListingOf(After(store.items, after)), 0, size, issued)
                         then CursorState else ctx.end.value
  {
    var fetched := store.ListAfter(ctx.store, ctx.late, size + 1, after);
    if fetched.Err? {
      return Err(fetched.error);
    }
    if ctx.fetched.Some? {
      return Err(ctx.fetched.value);
    }
    RowsAreOnWire(store.items, after, 0, size + 1);
    var cut := CutPage(Some(codec), fetched.value, size, issued, ListingOf(After(store.items, after)), 0);
    if cut.Err? {
      return Err(cut.error);
    }
    if ctx.end.Some? {
      return Err(ctx.end.value);
    }
    PageFills(After(store.items, after), 0, size);
    return Ok(CursorPage(cut.value.rows, size, cut.value.hasMore, cut.value.nextCursor));
  }

  /** One offset page, with a cursor for the next when a codec is configured. */
  method List(store: Store, codec: Option<Codec>, ctx: Contexts, limit: int, offset: int, issued: Instant)
    returns (r: Result<OffsetPage>)
    requires store.Valid() && AllOnWire(store.items) && Normalized(issued)
    ensures r.Ok? ==>
              && ctx.entry.None? && ctx.store.None? && ctx.late.None? && offset >= 0
              && Asks(limit, r.value.limit) && r.value.offset == offset
              && r.value.items == Window(ListingOf(store.items), offset, r.value.limit)
              && Fills(r.value.items, r.value.limit, |store.items| - offset)
              && r.value.hasMore == (|store.items| > offset + r.value.limit)
              && (codec.Some? ==> RightCursor(codec.value, r.value.items, r.value.hasMore, r.value.nextCursor, issued))
              && (codec.None? ==> r.value.nextCursor == "")
    ensures ctx.entry.Some? ==> r == Err(ctx.entry.value)
    ensures ctx.entry.None? && !(0 <= limit <= 100) ==> r == Err(InvalidInput("limit"))
    ensures ctx.entry.None? && 0 <= limit <= 100 && offset < 0 ==> r == Err(InvalidInput("offset"))
    ensures forall size :: ctx.entry.None? && Asks(limit, size) && offset >= 0 ==>
              if ctx.store.Some? then r == Err(ctx.store.value)
              else if ctx.late.Some? then r == Err(ctx.late.value)
              else if codec.None? || CanContinue(codec.value, ListingOf(store.items), offset, size, issued) then r.Ok?
              else r == Err(CursorState)
  {
    if ctx.entry.Some? {
      return Err(ctx.entry.value);
    }
    var size := EffectiveLimit(limit);
    if size < 0 || size > MAX_PAGE_SIZE {
      return Err(InvalidInput("limit"));
    }
    if offset < 0 {
      return Err(InvalidInput("offset"));
    }
    var fetched := store.List(ctx.store, ctx.late, size + 1, offset);
    if fetched.Err? {
      return Err(fetched.error);
    }
    RowsAreOnWire(store.items, None, offset, size + 1);
    var cut := CutPage(codec, fetched.value, size, issued, ListingOf(store.items), offset);
    if cut.Err? {
      return Err(cut.error);
    }
    PageFills(store.items, offset, size);
    var page := cut.value;
    return Ok(OffsetPage(page.rows, size, offset, page.hasMore, page.nextCursor));
  }

  /**
   * The migration path: for an unchanged store, following the cursor of an
   * offset page, while the codec still accepts it, shows the same rows and the
   * same "more" as the offset page that comes next.
   */
  lemma CursorOfOffsetPageContinuesIt(
      codec: Codec, items: map<Uuid, Item>, rows: seq<Item>, offset: nat, limit: nat, page: seq<Item>, next: Visit,
      cursor: string, issued: Instant, presented: Instant)
    requires Keyed(items) && rows == ListingOf(items) && limit > 0 && |rows| > offset + limit
    requires page == Window(rows, offset, limit)
    requires Normalized(issued) && RightCursor(codec, page, true, cursor, issued)
    requires RequestedAfter(codec, cursor, presented) == Ok(next.after) && next.items == items && IsVisit(next)
    ensures next.rows == Window(rows, offset + limit, next.limit)
    ensures next.hasMore == (|rows| > offset + limit + next.limit)
  {
    assert page != [] && next.after == Some(KeyOf(page[|page| - 1])) by {
      TokenNamesLastRow(codec, page, cursor, issued, presented);
    }
    VisitAfterPage(items, rows, offset, limit, page, next);
  }

  lemma VisitAfterPage(items: map<Uuid, Item>, rows: seq<Item>, offset: nat, limit: nat, page: seq<Item>, next: Visit)
    requires Keyed(items) && rows == ListingOf(items) && next.items == items && IsVisit(next)
    requires limit > 0 && offset + limit <= |rows| && page == Window(rows, offset, limit)
    requires page != [] && next.after == Some(KeyOf(page[|page| - 1]))
    ensures next.rows == Window(rows, offset + limit, next.limit)
    ensures next.hasMore == (|rows| > offset + limit + next.limit)
  {
    LastOfWindow(rows, offset, limit);
    VisitAfterRow(items, offset + limit - 1, next);
  }

  lemma TokenNamesLastRow(codec: Codec, rows: seq<Item>, cursor: string, issued: Instant, presented: Instant)
    requires Normalized(issued) && RightCursor(codec, rows, true, cursor, issued)
    requires RequestedAfter(codec, cursor, presented).Ok?
    ensures RequestedAfter(codec, cursor, presented) == Ok(Some(KeyOf(rows[|rows| - 1])))
  {
    var last := KeyOf(rows[|rows| - 1]);
    TokenIsShort(codec, Payload(last, ExpiryField(codec, issued)));
    DecodedIsEncoded(codec, last, issued, presented);
  }

  lemma VisitAfterRow(items: map<Uuid, Item>, i: nat, next: Visit)
    requires Keyed(items) && i < |ListingOf(items)| && next.items == items && IsVisit(next)
    requires next.after == Some(KeyOf(ListingOf(items)[i]))
    ensures next.rows == Window(ListingOf(items), i + 1, next.limit)
    ensures next.hasMore == (|ListingOf(items)| > i + 1 + next.limit)
  {
    ListingAfterRow(items, i);
    WindowOfSuffix(ListingOf(items), i + 1, 0, next.limit);
  }
}
