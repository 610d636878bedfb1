/** Reading a growing store page by page with cursors. */
module CursorWalk {
  import opened Items
  import opened Lexicographic
  import opened Listing
  import opened TimeWire
  import opened CursorCodec

  /** One page read: the store as it was then, where reading resumed, and what came back. */
  datatype Visit = Visit(items: map<Uuid, Item>, after: Option<Position>, limit: nat, rows: seq<Item>, hasMore: bool)

  /** The page the service returns: one look-ahead row decides `hasMore`. */
  ghost predicate IsVisit(v: Visit) {
    && Keyed(v.items)
    && v.limit > 0
    && v.rows == Window(ListingOf(After(v.items, v.after)), 0, v.limit)
    && v.hasMore == (|ListingOf(After(v.items, v.after))| > v.limit)
  }

  ghost predicate Grows(before: map<Uuid, Item>, later: map<Uuid, Item>) {
    forall id :: id in before ==> id in later && later[id] == before[id]
  }

  /** Each page resumes after the last row of the one before; the store only grows in between. */
  ghost predicate IsWalk(visits: seq<Visit>) {
    && visits != []
    && visits[0].after.None?
    && (forall i :: 0 <= i < |visits| ==> IsPage(visits, i))
    && (forall i :: 0 < i < |visits| ==> Continues(visits, i))
  }

  ghost predicate IsPage(visits: seq<Visit>, i: nat)
    requires i < |visits|
  {
    IsVisit(visits[i])
  }

  ghost predicate Continues(visits: seq<Visit>, i: nat)
    requires 0 < i < |visits|
  {
    visits[i - 1].hasMore && ResumesAfter(visits[i - 1], visits[i])
  }

  ghost predicate ResumesAfter(v: Visit, w: Visit) {
    v.rows != [] && w.after == Some(KeyOf(v.rows[|v.rows| - 1])) && Grows(v.items, w.items)
  }

  /** All rows of the walk, page after page. */
  function Returned(visits: seq<Visit>): seq<Item> {
    if visits == [] then [] else Returned(visits[..|visits| - 1]) + visits[|visits| - 1].rows
  }

  // ----- One page -----

  ghost predicate Resumed(v: Visit, x: Item) {
    v.after.None? || Precedes(v.after.value, KeyOf(x))
  }

  lemma PageIsPrefix(v: Visit)
    requires IsVisit(v)
    ensures var listing := ListingOf(After(v.items, v.after));
            && |v.rows| <= |listing|
            && v.rows == listing[..|v.rows|]
            && (v.hasMore <==> |v.rows| < |listing|)
            && (v.hasMore ==> v.rows != [])
  {
  }

  /**
   * A page shows exactly its range: the stored items after the position it
   * resumed from and, when there is more, not after its own last row.
   */
  lemma PageShowsItsRange(v: Visit, x: Item)
    requires IsVisit(v)
    ensures x in v.rows <==>
            && x.id in v.items && v.items[x.id] == x
            && Resumed(v, x)
            && (v.hasMore ==> v.rows != [] && !Precedes(KeyOf(v.rows[|v.rows| - 1]), KeyOf(x)))
  {
    PageIsPrefix(v);
    PrefixReachesItsLast(ListingOf(After(v.items, v.after)), |v.rows|, x);
    assert x in ListingOf(After(v.items, v.after)) <==> x.id in v.items && v.items[x.id] == x && Resumed(v, x);
  }

  /** A prefix of strictly ordered rows holds exactly the rows not after its last one. */
  lemma PrefixReachesItsLast(listing: seq<Item>, n: nat, x: Item)
    requires Descending(listing) && n <= |listing|
    ensures x in listing[..n] <==>
            x in listing && (n < |listing| ==> n > 0 && !Precedes(KeyOf(listing[n - 1]), KeyOf(x)))
  {
    if x in listing {
      var i :| 0 <= i < |listing| && listing[i] == x;
      if i < n {
        assert listing[..n][i] == x;
        PrecedesTotal(KeyOf(x), KeyOf(listing[n - 1]));
      } else {
        assert x !in listing[..n] by { NotEarlier(listing, n, i); }
      }
    }
  }

  lemma NotEarlier(listing: seq<Item>, n: nat, i: nat)
    requires Descending(listing) && n <= i < |listing|
    ensures listing[i] !in listing[..n]
  {
    PrecedesTotal(KeyOf(listing[i]), KeyOf(listing[i]));
  }

  lemma PageIsDescending(v: Visit)
    requires IsVisit(v)
    ensures Descending(v.rows)
  {
    PageIsPrefix(v);
  }

  // ----- The walk -----

  /** Every row of a later page lies after the last row of an earlier one. */
  lemma {:induction false} LaterPagesLieAfter(visits: seq<Visit>, i: nat, j: nat, x: Item)
    requires IsWalk(visits) && i < j < |visits| && x in visits[j].rows
    ensures visits[i].rows != [] && Precedes(KeyOf(visits[i].rows[|visits[i].rows| - 1]), KeyOf(x))
    decreases j
  {
    assert IsPage(visits, j) && Continues(visits, j);
    PageShowsItsRange(visits[j], x);
    var last := visits[j - 1].rows[|visits[j - 1].rows| - 1];
    if i < j - 1 {
      assert last in visits[j - 1].rows;
      LaterPagesLieAfter(visits, i, j - 1, last);
      PrecedesTransitive(KeyOf(visits[i].rows[|visits[i].rows| - 1]), KeyOf(last), KeyOf(x));
    }
  }

  lemma {:induction false} ReturnedHas(visits: seq<Visit>, x: Item)
    ensures x in Returned(visits) <==> exists i :: 0 <= i < |visits| && x in visits[i].rows
  {
    if visits == [] {
    } else {
      var n := |visits| - 1;
      ReturnedHas(visits[..n], x);
      if x in Returned(visits[..n]) {
        var i :| 0 <= i < n && x in visits[..n][i].rows;
        assert x in visits[i].rows;
      }
      if i :| 0 <= i < |visits| && x in visits[i].rows {
        if i < n { assert x in visits[..n][i].rows; }
      }
    }
  }

  lemma WalkPrefix(visits: seq<Visit>, n: nat)
    requires IsWalk(visits) && 0 < n <= |visits|
    ensures IsWalk(visits[..n])
  {
    forall i | 0 <= i < n ensures IsPage(visits[..n], i) {
      assert IsPage(visits, i);
    }
    forall i | 0 < i < n ensures Continues(visits[..n], i) {
      assert Continues(visits, i);
    }
  }

  lemma AppendIsDescending(a: seq<Item>, b: seq<Item>)
    requires Descending(a) && Descending(b)
    requires forall x, y :: x in a && y in b ==> Precedes(KeyOf(x), KeyOf(y))
    ensures Descending(a + b)
  {
    var all := a + b;
    forall i, j | 0 <= i < j < |all| ensures Precedes(KeyOf(all[i]), KeyOf(all[j])) {
      if i < |a| <= j { assert a[i] in a && b[j - |a|] in b; }
    }
  }

  /** The rows of a walk come in strictly descending order, so none is repeated. */
  lemma {:induction false} WalkIsDescending(visits: seq<Visit>)
    requires IsWalk(visits)
    ensures Descending(Returned(visits))
    decreases |visits|
  {
    var n := |visits| - 1;
    if n == 0 {
      assert IsPage(visits, 0);
      PageIsDescending(visits[0]);
      assert Returned(visits[..0]) == [] && Returned(visits) == visits[0].rows;
    } else {
      assert IsWalk(visits[..n]) by { WalkPrefix(visits, n); }
      WalkIsDescending(visits[..n]);
      PageExtendsWalk(visits, n, Returned(visits[..n]));
    }
  }

  lemma PageExtendsWalk(visits: seq<Visit>, n: nat, earlier: seq<Item>)
    requires IsWalk(visits) && 0 < n < |visits| && earlier == Returned(visits[..n]) && Descending(earlier)
    ensures Descending(earlier + visits[n].rows)
  {
    assert Descending(visits[n].rows) by {
      assert IsPage(visits, n);
      PageIsDescending(visits[n]);
    }
    forall x, y | x in earlier && y in visits[n].rows ensures Precedes(KeyOf(x), KeyOf(y)) {
      EarlierRowsPrecede(visits, n, x, y);
    }
    AppendIsDescending(earlier, visits[n].rows);
  }

  lemma EarlierRowsPrecede(visits: seq<Visit>, n: nat, x: Item, y: Item)
    requires IsWalk(visits) && 0 < n < |visits| && x in Returned(visits[..n]) && y in visits[n].rows
    ensures Precedes(KeyOf(x), KeyOf(y))
  {
    var prefix := visits[..n];
    assert exists i :: 0 <= i < n && x in prefix[i].rows by { ReturnedHas(prefix, x); }
    var i :| 0 <= i < n && x in prefix[i].rows;
    assert prefix[i] == visits[i];
    RowOfPagePrecedes(visits, i, n, x, y);
  }

  lemma RowOfPagePrecedes(visits: seq<Visit>, i: nat, n: nat, x: Item, y: Item)
    requires IsWalk(visits) && i < n < |visits| && x in visits[i].rows && y in visits[n].rows
    ensures Precedes(KeyOf(x), KeyOf(y))
  {
    LaterPagesLieAfter(visits, i, n, y);
    assert Descending(visits[i].rows) by {
      assert IsPage(visits, i);
      PageIsDescending(visits[i]);
    }
    RowPrecedesWhatItsLastDoes(visits[i].rows, x, y);
  }

  lemma RowPrecedesWhatItsLastDoes(rows: seq<Item>, x: Item, y: Item)
    requires Descending(rows) && x in rows && Precedes(KeyOf(rows[|rows| - 1]), KeyOf(y))
    ensures Precedes(KeyOf(x), KeyOf(y))
  {
    var k :| 0 <= k < |rows| && rows[k] == x;
    if k < |rows| - 1 {
      PrecedesTransitive(KeyOf(x), KeyOf(rows[|rows| - 1]), KeyOf(y));
    }
  }

  lemma {:induction false} StoreGrows(visits: seq<Visit>, n: nat)
    requires IsWalk(visits) && n < |visits|
    ensures Grows(visits[0].items, visits[n].items)
  {
    if n == 0 {
    } else {
      StoreGrows(visits, n - 1);
      assert Continues(visits, n);
    }
  }

  lemma ShownOrAhead(v: Visit, w: Visit, x: Item)
    requires IsVisit(v) && v.hasMore && ResumesAfter(v, w) && x.id in v.items && v.items[x.id] == x && Resumed(v, x)
    ensures x in v.rows || Resumed(w, x)
  {
    PageShowsItsRange(v, x);
  }

  /** An item present from the start is returned or still lies ahead. */
  lemma {:induction false} ReturnedOrAhead(visits: seq<Visit>, x: Item, n: nat)
    requires IsWalk(visits) && n < |visits| && x.id in visits[0].items && visits[0].items[x.id] == x
    ensures (exists i :: 0 <= i < n && x in visits[i].rows) || Resumed(visits[n], x)
    decreases n
  {
    if n == 0 {
    } else {
      ReturnedOrAhead(visits, x, n - 1);
      StoreGrows(visits, n - 1);
      assert IsPage(visits, n - 1) && Continues(visits, n);
      if Resumed(visits[n - 1], x) { ShownOrAhead(visits[n - 1], visits[n], x); }
    }
  }

  /** A completed walk contains every item that was there when it began. */
  lemma WalkLosesNothing(visits: seq<Visit>, x: Item)
    requires IsWalk(visits) && !visits[|visits| - 1].hasMore
    requires x.id in visits[0].items && visits[0].items[x.id] == x
    ensures x in Returned(visits)
  {
    var n := |visits| - 1;
    ReturnedOrAhead(visits, x, n);
    StoreGrows(visits, n);
    assert IsPage(visits, n);
    PageShowsItsRange(visits[n], x);
    ReturnedHas(visits, x);
  }

  /** An item inserted at or above the place already reached never shows up on a later page. */
  lemma InsertsAboveStayOut(visits: seq<Visit>, i: nat, j: nat, x: Item)
    requires IsWalk(visits) && i < j < |visits|
    requires visits[i].rows != [] && !Precedes(KeyOf(visits[i].rows[|visits[i].rows| - 1]), KeyOf(x))
    ensures x !in visits[j].rows
  {
    if x in visits[j].rows { LaterPagesLieAfter(visits, i, j, x); }
  }

  /** Everything returned was in the store when its page was read. */
  lemma WalkInventsNothing(visits: seq<Visit>, x: Item)
    requires IsWalk(visits) && x in Returned(visits)
    ensures exists i ::
              0 <= i < |visits| && x in visits[i].rows && x.id in visits[i].items && visits[i].items[x.id] == x
  {
    ReturnedHas(visits, x);
    var i :| 0 <= i < |visits| && x in visits[i].rows;
    assert IsPage(visits, i);
    PageShowsItsRange(visits[i], x);
  }

  // ----- Following tokens -----

  /** A token decodes to the position it was issued for, or not at all. */
  lemma DecodedIsEncoded(codec: Codec, p: Position, now: Instant, later: Instant)
    requires OnWire(p.createdAt) && Normalized(now) && Encode(codec, p, now).Ok?
    requires Decode(codec, Encode(codec, p, now).value, later).Ok?
    ensures Decode(codec, Encode(codec, p, now).value, later).value == p
  {
    RoundTrip(codec, p, now, later);
  }

  /** Page `w` was requested with the token issued for the last row of page `v`. */
  ghost predicate FollowsToken(codec: Codec, v: Visit, w: Visit, issued: Instant, presented: Instant) {
    && v.rows != []
    && Normalized(issued)
    && OnWire(v.rows[|v.rows| - 1].createdAt)
    && var token := Encode(codec, KeyOf(v.rows[|v.rows| - 1]), issued);
       && token.Ok?
       && w.after.Some?
       && Decode(codec, token.value, presented) == Ok(w.after.value)
  }

  /** Pages fetched by following accepted tokens form a walk. */
  lemma FollowingTokensIsAWalk(codec: Codec, visits: seq<Visit>, issued: seq<Instant>, presented: seq<Instant>)
    requires visits != [] && visits[0].after.None? && |issued| == |presented| == |visits|
    requires forall i :: 0 <= i < |visits| ==> IsPage(visits, i)
    requires forall i :: 0 < i < |visits| ==> Fetched(codec, visits, issued, presented, i)
    ensures IsWalk(visits)
  {
    forall i | 0 < i < |visits| ensures Continues(visits, i) {
      assert Fetched(codec, visits, issued, presented, i);
      DecodedIsEncoded(codec, KeyOf(visits[i - 1].rows[|visits[i - 1].rows| - 1]), issued[i - 1], presented[i]);
    }
  }

  /** Page i was fetched from a grown store with the token of the page before it. */
  ghost predicate Fetched(codec: Codec, visits: seq<Visit>, issued: seq<Instant>, presented: seq<Instant>, i: nat)
    requires |issued| == |presented| == |visits| && 0 < i < |visits|
  {
    && visits[i - 1].hasMore
    && Grows(visits[i - 1].items, visits[i].items)
    && FollowsToken(codec, visits[i - 1], visits[i], issued[i - 1], presented[i])
  }

  // ----- Offsets and cursors agree -----

  lemma {:induction false} BoundaryOfRow(rows: seq<Item>, i: nat)
    requires Descending(rows) && i < |rows|
    ensures Boundary(rows, Some(KeyOf(rows[i]))) == i + 1
  {
    var after := Some(KeyOf(rows[i]));
    BoundarySplits(rows, after, i);
    PrecedesTotal(KeyOf(rows[i]), KeyOf(rows[i]));
    if i + 1 < |rows| {
      BoundarySplits(rows, after, i + 1);
    }
  }

  lemma ListingAfterRow(items: map<Uuid, Item>, i: nat)
    requires Keyed(items) && i < |ListingOf(items)|
    ensures ListingOf(After(items, Some(KeyOf(ListingOf(items)[i])))) == ListingOf(items)[i + 1..]
  {
    var rows := ListingOf(items);
    var after := Some(KeyOf(rows[i]));
    BoundaryOfRow(rows, i);
    SuffixListsAfter(items, rows, after);
    ListingIsUnique(After(items, after), rows[i + 1..], ListingOf(After(items, after)));
  }

  /**
   * For a fixed store, the page after the cursor of the last row of
   * (offset, limit) is the page at offset + limit, look-ahead included.
   */
  lemma CursorContinuesOffset(
      items: map<Uuid, Item>, rows: seq<Item>, page: seq<Item>, offset: nat, limit: nat, count: nat, older: seq<Item>)
    requires Keyed(items) && rows == ListingOf(items) && limit > 0 && offset + limit <= |rows|
    requires page == Window(rows, offset, limit) && page != []
    requires older == ListingOf(After(items, Some(KeyOf(page[|page| - 1]))))
    ensures Window(older, 0, count) == Window(rows, offset + limit, count)
  {
    LastOfWindow(rows, offset, limit);
    WindowAfterRow(items, rows, offset + limit - 1, count, older);
  }

  lemma WindowAfterRow(items: map<Uuid, Item>, rows: seq<Item>, i: nat, count: nat, older: seq<Item>)
    requires Keyed(items) && rows == ListingOf(items) && i < |rows|
    requires older == ListingOf(After(items, Some(KeyOf(rows[i]))))
    ensures Window(older, 0, count) == Window(rows, i + 1, count)
  {
    ListingAfterRow(items, i);
    WindowOfSuffix(rows, i + 1, 0, count);
  }

  /** Offsets alone are not stable: an item inserted on top moves every row down by one. */
  lemma InsertOnTopShiftsOffsets(items: map<Uuid, Item>, x: Item)
    requires Keyed(items) && x.id !in items
    requires forall id :: id in items ==> Precedes(KeyOf(x), KeyOf(items[id]))
    ensures Keyed(items[x.id := x])
    ensures ListingOf(items[x.id := x]) == [x] + ListingOf(items)
  {
    var rows := ListingOf(items);
    assert rows != [] ==> rows[0] in rows;
    PrependIsDescending(x, rows);
    assert Lists(items[x.id := x], [x] + rows);
    ListingIsUnique(items[x.id := x], [x] + rows, ListingOf(items[x.id := x]));
  }
}
