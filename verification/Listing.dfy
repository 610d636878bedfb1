/** The newest-first order of items and the pages read from it. */
module Listing {
  import opened Items
  import opened Lexicographic

  /** A place in the order: what a cursor carries. */
  datatype Position = Position(createdAt: Instant, id: Uuid)

  function KeyOf(x: Item): Position {
    Position(x.createdAt, x.id)
  }

  /** `p` is listed before `q`: created later, or at the same instant with a larger ID. */
  predicate Precedes(p: Position, q: Position) {
    q.createdAt.Before(p.createdAt) || (q.createdAt == p.createdAt && Less(q.id, p.id))
  }

  lemma PrecedesTransitive(p: Position, q: Position, r: Position)
    requires Precedes(p, q) && Precedes(q, r)
    ensures Precedes(p, r)
  {
    if Less(q.id, p.id) && Less(r.id, q.id) { LessTransitive(r.id, q.id, p.id); }
  }

  lemma PrecedesTotal(p: Position, q: Position)
    ensures p != q ==> Precedes(p, q) || Precedes(q, p)
    ensures !(Precedes(p, q) && Precedes(q, p))
    ensures !Precedes(p, p)
  {
    LessTotal(p.id, q.id);
    LessIrreflexive(p.id);
  }

  // ----- Sorted rows -----

  ghost predicate Descending(rows: seq<Item>) {
    forall i, j :: 0 <= i < j < |rows| ==> Precedes(KeyOf(rows[i]), KeyOf(rows[j]))
  }

  /** Two strictly ordered rows of the same items are the same rows. */
  lemma {:induction false} DescendingIsUnique(a: seq<Item>, b: seq<Item>)
    requires Descending(a) && Descending(b) && forall x :: x in a <==> x in b
    ensures a == b
    decreases |a|
  {
    assert b == [] || b[0] in b;
    if a != [] {
      assert a[0] in b && b[0] in a;
      FirstIsHighest(a, b[0]);
      FirstIsHighest(b, a[0]);
      PrecedesTotal(KeyOf(a[0]), KeyOf(b[0]));
      assert a[0] == b[0];
      forall x ensures x in a[1..] <==> x in b[1..] {
        TailOfDescending(a, x);
        TailOfDescending(b, x);
      }
      DescendingIsUnique(a[1..], b[1..]);
      assert a == [a[0]] + a[1..] && b == [b[0]] + b[1..];
    }
  }

  lemma FirstIsHighest(a: seq<Item>, x: Item)
    requires Descending(a) && x in a
    ensures x == a[0] || Precedes(KeyOf(a[0]), KeyOf(x))
  {
  }

  lemma TailOfDescending(a: seq<Item>, x: Item)
    requires Descending(a) && a != []
    ensures x in a[1..] <==> x in a && x != a[0]
  {
    if x in a[1..] {
      var i :| 0 <= i < |a[1..]| && a[1..][i] == x;
      assert a[i + 1] == x;
      PrecedesTotal(KeyOf(x), KeyOf(x));
    }
  }

  // ----- Sorting, as sort.Slice does with either comparison -----

  /** The comparison of List (IDs as text) or of ListAfter (IDs as bytes). */
  predicate SortsBefore(textual: bool, x: Item, y: Item) {
    if x.createdAt == y.createdAt then
      if textual then Less(UuidText(y.id), UuidText(x.id)) else Less(y.id, x.id)
    else y.createdAt.Before(x.createdAt)
  }

  /** Both comparisons are the one order. */
  lemma ComparisonsAgree(textual: bool, x: Item, y: Item)
    ensures SortsBefore(textual, x, y) <==> Precedes(KeyOf(x), KeyOf(y))
  {
    TextOrderIsByteOrder(y.id, x.id);
    if x.createdAt == y.createdAt { assert !y.createdAt.Before(x.createdAt); }
  }

  function Inserted(textual: bool, x: Item, rows: seq<Item>): seq<Item> {
    if rows == [] || SortsBefore(textual, x, rows[0]) then [x] + rows
    else [rows[0]] + Inserted(textual, x, rows[1..])
  }

  function Sorted(textual: bool, values: seq<Item>): seq<Item> {
    if values == [] then [] else Inserted(textual, values[0], Sorted(textual, values[1..]))
  }

  ghost predicate DistinctKeys(values: seq<Item>) {
    forall i, j :: 0 <= i < j < |values| ==> KeyOf(values[i]) != KeyOf(values[j])
  }

  lemma {:induction false} InsertedHas(textual: bool, x: Item, rows: seq<Item>, y: Item)
    ensures y in Inserted(textual, x, rows) <==> y == x || y in rows
  {
    if rows != [] && !SortsBefore(textual, x, rows[0]) {
      InsertedHas(textual, x, rows[1..], y);
      assert rows == [rows[0]] + rows[1..];
    }
  }

  lemma {:induction false} InsertedIsDescending(textual: bool, x: Item, rows: seq<Item>)
    requires Descending(rows) && forall y :: y in rows ==> KeyOf(y) != KeyOf(x)
    ensures Descending(Inserted(textual, x, rows))
  {
    if rows == [] {
    } else {
      ComparisonsAgree(textual, x, rows[0]);
      if SortsBefore(textual, x, rows[0]) {
        PrependIsDescending(x, rows);
      } else {
        PrecedesTotal(KeyOf(x), KeyOf(rows[0]));
        InsertedIsDescending(textual, x, rows[1..]);
        var rest := Inserted(textual, x, rows[1..]);
        if rest != [] { InsertedHas(textual, x, rows[1..], rest[0]); }
        assert rest != [] ==> rest[0] in rest;
        PrependIsDescending(rows[0], rest);
      }
    }
  }

  lemma PrependIsDescending(x: Item, rows: seq<Item>)
    requires Descending(rows) && (rows != [] ==> Precedes(KeyOf(x), KeyOf(rows[0])))
    ensures Descending([x] + rows)
  {
    var all := [x] + rows;
    forall i, j | 0 <= i < j < |all| ensures Precedes(KeyOf(all[i]), KeyOf(all[j])) {
      if i == 0 && j > 1 { PrecedesTransitive(KeyOf(x), KeyOf(rows[0]), KeyOf(rows[j - 1])); }
    }
  }

  /** Sorting by either comparison lists the same items in the one order. */
  lemma {:induction false} SortedLists(textual: bool, values: seq<Item>)
    requires DistinctKeys(values)
    ensures Descending(Sorted(textual, values))
    ensures forall x :: x in Sorted(textual, values) <==> x in values
  {
    if values == [] {
    } else {
      var rest := Sorted(textual, values[1..]);
      SortedLists(textual, values[1..]);
      forall y | y in rest ensures KeyOf(y) != KeyOf(values[0]) {
        var i :| 0 <= i < |values[1..]| && values[1..][i] == y;
        assert values[i + 1] == y;
      }
      InsertedIsDescending(textual, values[0], rest);
      forall x ensures x in Sorted(textual, values) <==> x in values {
        InsertedHas(textual, values[0], rest, x);
        assert values == [values[0]] + values[1..];
      }
    }
  }

  // ----- The listing of a store -----

  /** Items are stored under their own ID. */
  predicate Keyed(items: map<Uuid, Item>) {
    forall id :: id in items ==> items[id].id == id
  }

  /** `rows` are exactly the items of the store, newest first. */
  ghost predicate Lists(items: map<Uuid, Item>, rows: seq<Item>) {
    && Descending(rows)
    && forall x {:trigger x in rows} {:trigger x.id in items} :: x in rows <==> x.id in items && items[x.id] == x
  }

  lemma ListingIsUnique(items: map<Uuid, Item>, a: seq<Item>, b: seq<Item>)
    requires Lists(items, a) && Lists(items, b)
    ensures a == b
  {
    DescendingIsUnique(a, b);
  }

  /** The items a scan of the map visits, in some order. */
  ghost predicate Scans(items: map<Uuid, Item>, values: seq<Item>) {
    && (forall x {:trigger x in values} {:trigger x.id in items} :: x in values <==> x.id in items && items[x.id] == x)
    && DistinctKeys(values)
  }

  /** Whatever order the map was scanned in, sorting yields the listing. */
  lemma SortedScanLists(textual: bool, items: map<Uuid, Item>, values: seq<Item>)
    requires Scans(items, values)
    ensures Lists(items, Sorted(textual, values))
  {
    SortedLists(textual, values);
  }

  lemma {:induction false} ScanExists(items: map<Uuid, Item>)
    requires Keyed(items)
    ensures exists values :: Scans(items, values)
    decreases |items|
  {
    if items == map[] {
      assert Scans(items, []);
    } else {
      var id :| id in items;
      var rest := items - {id};
      assert rest.Keys == items.Keys - {id};
      ScanExists(rest);
      var values :| Scans(rest, values);
      ScanExtends(rest, values, items, id);
      assert Scans(items, values + [items[id]]);
    }
  }

  lemma ScanExtends(rest: map<Uuid, Item>, values: seq<Item>, items: map<Uuid, Item>, id: Uuid)
    requires Keyed(items) && id in items && id !in rest && items == rest[id := items[id]] && Scans(rest, values)
    ensures Scans(items, values + [items[id]])
  {
    var all := values + [items[id]];
    forall i, j | 0 <= i < j < |all| ensures KeyOf(all[i]) != KeyOf(all[j]) {
      if j == |values| { assert values[i] in values; }
    }
  }

  lemma ListingExists(items: map<Uuid, Item>)
    requires Keyed(items)
    ensures exists rows :: Lists(items, rows)
  {
    ScanExists(items);
    var values :| Scans(items, values);
    SortedScanLists(false, items, values);
  }

  /** The one newest-first listing of a store. */
  ghost function ListingOf(items: map<Uuid, Item>): (rows: seq<Item>)
    requires Keyed(items)
    ensures Lists(items, rows)
  {
    ListingExists(items);
    var rows :| Lists(items, rows);
    rows
  }

  /** A listing has one row per item. */
  lemma ListingSize(items: map<Uuid, Item>)
    requires Keyed(items)
    ensures |ListingOf(items)| == |items|
  {
    RowsOfKeys(items, ListingOf(items));
  }

  lemma {:induction false} RowsOfKeys(items: map<Uuid, Item>, rows: seq<Item>)
    requires Keyed(items) && Lists(items, rows)
    ensures |rows| == |items|
  {
    var ids := seq<Uuid>(|rows|, i requires 0 <= i < |rows| => rows[i].id);
    forall i, j | 0 <= i < j < |ids| ensures ids[i] != ids[j] {
      assert Precedes(KeyOf(rows[i]), KeyOf(rows[j])) && rows[i] in rows && rows[j] in rows;
      LessIrreflexive(rows[i].id);
    }
    forall id | id in items ensures id in ids {
      assert items[id] in rows;
      var i :| 0 <= i < |rows| && rows[i] == items[id];
      assert ids[i] == id;
    }
    forall id | id in ids ensures id in items {
      var i :| 0 <= i < |ids| && ids[i] == id;
      assert rows[i] in rows;
    }
    DistinctCount(ids, items.Keys);
  }

  lemma {:induction false} DistinctCount(ids: seq<Uuid>, all: set<Uuid>)
    requires (forall i, j :: 0 <= i < j < |ids| ==> ids[i] != ids[j]) && forall id :: id in ids <==> id in all
    ensures |ids| == |all|
  {
    if ids == [] {
      assert all == {};
    } else {
      var front, last := ids[..|ids| - 1], ids[|ids| - 1];
      assert ids == front + [last];
      DistinctCount(front, all - {last});
    }
  }

  /** Newest first: no row is older than a later one, and rows of one instant go from the largest ID down. */
  lemma NewestFirst(items: map<Uuid, Item>, i: nat, j: nat)
    requires Keyed(items) && i < j < |ListingOf(items)|
    ensures var a, b := ListingOf(items)[i], ListingOf(items)[j];
            && (a.createdAt.sec > b.createdAt.sec
                || (a.createdAt.sec == b.createdAt.sec && a.createdAt.nsec >= b.createdAt.nsec))
            && (a.createdAt == b.createdAt ==> exists n: nat :: SmallerAt(b.id, a.id, n))
  {
    var a, b := ListingOf(items)[i], ListingOf(items)[j];
    assert Precedes(KeyOf(a), KeyOf(b));
    LessExactly(b.id, a.id);
  }

  // ----- Pages -----

  function Window(rows: seq<Item>, offset: nat, limit: nat): seq<Item> {
    if offset >= |rows| then [] else if offset + limit <= |rows| then rows[offset..offset + limit] else rows[offset..]
  }

  lemma WindowOfSuffix(rows: seq<Item>, start: nat, offset: nat, limit: nat)
    requires start <= |rows|
    ensures Window(rows[start..], offset, limit) == Window(rows, start + offset, limit)
  {
  }

  lemma LastOfWindow(rows: seq<Item>, offset: nat, limit: nat)
    requires limit > 0 && offset + limit <= |rows|
    ensures |Window(rows, offset, limit)| == limit && Window(rows, offset, limit)[limit - 1] == rows[offset + limit - 1]
  {
  }

  /** The items listed strictly after a position, or all of them. */
  function After(items: map<Uuid, Item>, after: Option<Position>): (older: map<Uuid, Item>)
    requires Keyed(items)
    ensures Keyed(older)
  {
    if after.None? then items else map id | id in items && Precedes(after.value, KeyOf(items[id])) :: items[id]
  }

  /** The first index whose row lies after the position. */
  function Boundary(rows: seq<Item>, after: Option<Position>): (start: nat)
    ensures start <= |rows|
  {
    if rows == [] || after.None? || Precedes(after.value, KeyOf(rows[0])) then 0 else 1 + Boundary(rows[1..], after)
  }

  lemma {:induction false} BoundarySplits(rows: seq<Item>, after: Option<Position>, i: nat)
    requires Descending(rows) && i < |rows|
    ensures i >= Boundary(rows, after) <==> after.None? || Precedes(after.value, KeyOf(rows[i]))
    decreases i
  {
    if after.Some? {
      if i > 0 {
        if Precedes(after.value, KeyOf(rows[0])) {
          PrecedesTransitive(after.value, KeyOf(rows[0]), KeyOf(rows[i]));
        } else {
          BoundarySplits(rows[1..], after, i - 1);
        }
      }
    }
  }

  lemma SuffixHas(rows: seq<Item>, after: Option<Position>, x: Item)
    requires Descending(rows)
    ensures x in rows[Boundary(rows, after)..] <==> x in rows && (after.None? || Precedes(after.value, KeyOf(x)))
  {
    var start := Boundary(rows, after);
    if x in rows {
      var i :| 0 <= i < |rows| && rows[i] == x;
      BoundarySplits(rows, after, i);
      InSuffix(rows, start, i);
    }
  }

  /** A row is in a suffix exactly when its index is, for rows without repetition. */
  lemma InSuffix(rows: seq<Item>, start: nat, i: nat)
    requires Descending(rows) && start <= |rows| && i < |rows|
    ensures rows[i] in rows[start..] <==> start <= i
  {
    var suffix := rows[start..];
    if i >= start {
      assert suffix[i - start] == rows[i];
    } else {
      forall k | 0 <= k < |suffix| ensures suffix[k] != rows[i] {
        PrecedesTotal(KeyOf(rows[i]), KeyOf(rows[start + k]));
      }
    }
  }

  lemma SuffixIsDescending(rows: seq<Item>, start: nat)
    requires Descending(rows) && start <= |rows|
    ensures Descending(rows[start..])
  {
  }

  /** Dropping the rows up to the boundary lists exactly the items after it. */
  lemma SuffixListsAfter(items: map<Uuid, Item>, rows: seq<Item>, after: Option<Position>)
    requires Keyed(items) && Lists(items, rows)
    ensures Lists(After(items, after), rows[Boundary(rows, after)..])
  {
    SuffixIsDescending(rows, Boundary(rows, after));
    var older := After(items, after);
    forall x ensures x in rows[Boundary(rows, after)..] <==> x.id in older && older[x.id] == x {
      SuffixHas(rows, after, x);
    }
  }
}
