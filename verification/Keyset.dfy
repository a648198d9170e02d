// Keyset pagination (libs/go/httpx/httpx.go:246-347 and the list queries of
// services/ledger-core/internal/adapters/postgres/store.go:73-93, 153-177):
// pages of a growing table, walked by cursor.
module Keysets {
  import opened Wrappers
  import opened Domain

  // The sort key of a row; ids are unique and never nil.
  datatype Key = Key(at: Time, id: Id)

  // The zero time.Time, in microseconds.
  const ZERO_TIME: Time := -62_135_596_800_000_000
  const ZERO_CURSOR := Key(ZERO_TIME, 0)

  const DEFAULT_LIMIT: int := 50
  const MAX_LIMIT: int := 200

  predicate IsZero(c: Key) {
    c == ZERO_CURSOR
  }

  // cursorArgs: the zero cursor asks for the first page.
  function Position(c: Key): Option<Key> {
    if IsZero(c) then None else Some(c)
  }

  function NormalizeLimit(limit: int): (r: int)
    ensures 1 <= r <= 201
    ensures 1 <= limit <= 201 ==> r == limit
    ensures limit <= 0 ==> r == 51
    ensures limit > 201 ==> r == 201
  {
    if limit <= 0 then DEFAULT_LIMIT + 1 else if limit > MAX_LIMIT + 1 then MAX_LIMIT + 1 else limit
  }

  function FetchLimit(limit: int): int {
    limit + 1
  }

  // ---- The row order -----------------------------------------------------------

  predicate Earlier(a: Key, b: Key) {
    a.at < b.at || (a.at == b.at && a.id < b.id)
  }

  // a is listed before b.
  predicate Less(a: Key, b: Key, desc: bool) {
    if desc then Earlier(b, a) else Earlier(a, b)
  }

  ghost predicate IsFirst(m: Key, s: set<Key>, desc: bool) {
    m in s && forall k :: k in s && k != m ==> Less(m, k, desc)
  }

  lemma {:induction false} HasFirst(s: set<Key>, desc: bool)
    requires s != {}
    ensures exists m :: IsFirst(m, s, desc)
    decreases |s|
  {
    var x :| x in s;
    var rest := s - {x};
    if rest == {} {
      assert s == {x};
      assert IsFirst(x, s, desc);
    } else {
      HasFirst(rest, desc);
      var m :| IsFirst(m, rest, desc);
      assert s == rest + {x};
      assert IsFirst(if Less(x, m, desc) then x else m, s, desc);
    }
  }

  ghost function First(s: set<Key>, desc: bool): (m: Key)
    requires s != {}
    ensures IsFirst(m, s, desc)
  {
    HasFirst(s, desc);
    var m :| IsFirst(m, s, desc);
    m
  }

  // SELECT ... ORDER BY: every row once, in order.
  ghost function Listing(s: set<Key>, desc: bool): seq<Key>
    decreases |s|
  {
    if s == {} then [] else [First(s, desc)] + Listing(s - {First(s, desc)}, desc)
  }

  ghost predicate Ordered(r: seq<Key>, desc: bool) {
    forall i, j :: 0 <= i < j < |r| ==> Less(r[i], r[j], desc)
  }

  // By time, then by id; newest first when desc.
  ghost predicate Sorted(r: seq<Key>, desc: bool) {
    forall i, j :: 0 <= i < j < |r| ==>
      if desc then r[j].at < r[i].at || (r[j].at == r[i].at && r[j].id < r[i].id)
      else r[i].at < r[j].at || (r[i].at == r[j].at && r[i].id < r[j].id)
  }

  lemma OrderedSorted(r: seq<Key>, desc: bool)
    requires Ordered(r, desc)
    ensures Sorted(r, desc)
  {
    forall i, j | 0 <= i < j < |r|
      ensures if desc then r[j].at < r[i].at || (r[j].at == r[i].at && r[j].id < r[i].id)
              else r[i].at < r[j].at || (r[i].at == r[j].at && r[i].id < r[j].id)
    {
      assert Less(r[i], r[j], desc);
    }
  }

  lemma {:induction false} ListingExact(s: set<Key>, desc: bool)
    ensures Ordered(Listing(s, desc), desc)
    ensures forall k :: k in Listing(s, desc) <==> k in s
    ensures |Listing(s, desc)| == |s|
    decreases |s|
  {
    if s != {} {
      var m := First(s, desc);
      var rest := Listing(s - {m}, desc);
      ListingExact(s - {m}, desc);
      forall j | 0 <= j < |rest|
        ensures Less(m, rest[j], desc)
      {
        assert rest[j] in rest;
      }
    }
  }

  // In the order the queries ask for.
  lemma ListingSorted(s: set<Key>, desc: bool)
    ensures Sorted(Listing(s, desc), desc)
  {
    ListingExact(s, desc);
    OrderedSorted(Listing(s, desc), desc);
  }

  // ... and it is the only such list.
  lemma {:induction false} OrderedUnique(a: seq<Key>, b: seq<Key>, desc: bool)
    requires Ordered(a, desc) && Ordered(b, desc)
    requires forall k :: k in a <==> k in b
    ensures a == b
  {
    OrderedCount(a, desc);
    OrderedCount(b, desc);
    assert Members(a) == Members(b);
    if a != [] {
      assert a[0] in b;
      var i :| 0 <= i < |b| && b[i] == a[0];
      assert b[0] in a;
      var j :| 0 <= j < |a| && a[j] == b[0];
      assert a[0] == b[0];
      forall k
        ensures k in a[1..] <==> k in b[1..]
      {
        TailMembers(a, k, desc);
        TailMembers(b, k, desc);
      }
      OrderedUnique(a[1..], b[1..], desc);
    }
  }

  lemma TailMembers(a: seq<Key>, k: Key, desc: bool)
    requires Ordered(a, desc) && a != []
    ensures k in a[1..] <==> k in a && k != a[0]
  {
    if k in a && k != a[0] {
      var i :| 0 <= i < |a| && a[i] == k;
      assert a[1..][i - 1] == k;
    }
    if k in a[1..] {
      var i :| 0 <= i < |a| - 1 && a[1..][i] == k;
      assert Less(a[0], a[i + 1], desc);
    }
  }

  // ---- One page --------------------------------------------------------------------

  function Beyond(s: set<Key>, c: Option<Key>, desc: bool): set<Key> {
    set k | k in s && (c.Some? ==> Less(c.value, k, desc))
  }

  ghost function Fetch(s: set<Key>, c: Option<Key>, desc: bool, limit: nat): seq<Key> {
    var rows := Listing(Beyond(s, c, desc), desc);
    if |rows| <= limit then rows else rows[..limit]
  }

  // Trims the extra row and turns it into the next cursor.
  function Window(items: seq<Key>, limit: nat): (r: (seq<Key>, Option<Key>))
    requires limit >= 1
    ensures r.0 <= items && |r.0| == if |items| > limit then limit else |items|
    ensures r.1.Some? <==> |items| > limit
    ensures r.1.Some? ==> r.1.value == r.0[limit - 1]
  {
    if |items| <= limit then (items, None) else (items[..limit], Some(items[limit - 1]))
  }

  ghost function Page(s: set<Key>, cursor: Key, desc: bool, limit: nat): (seq<Key>, Option<Key>)
    requires 1 <= limit <= MAX_LIMIT
  {
    Window(Fetch(s, Position(cursor), desc, NormalizeLimit(FetchLimit(limit))), limit)
  }

  // A page holds the next limit rows beyond the cursor; there is a next
  // cursor exactly when rows are left, and it is the last row returned.
  lemma PageExact(s: set<Key>, cursor: Key, desc: bool, limit: nat)
    requires 1 <= limit <= MAX_LIMIT
    ensures var rows := Listing(Beyond(s, Position(cursor), desc), desc);
            var (items, next) := Page(s, cursor, desc, limit);
            && items == (if |rows| <= limit then rows else rows[..limit])
            && next == (if |rows| <= limit then None else Some(rows[limit - 1]))
  {
    var rows := Listing(Beyond(s, Position(cursor), desc), desc);
    var items := Fetch(s, Position(cursor), desc, limit + 1);
    assert |rows| > limit ==> items[..limit] == rows[..limit];
  }

  // ---- Walking ------------------------------------------------------------------------

  // Inserts between the fetches: every fetch sees at least what the one
  // before it saw.
  ghost predicate Growing(tables: seq<set<Key>>) {
    forall i, j :: 0 <= i <= j < |tables| ==> tables[i] <= tables[j]
  }

  ghost predicate ProperIds(tables: seq<set<Key>>) {
    forall i, k :: 0 <= i < |tables| && k in tables[i] ==> k.id != 0
  }

  // The rows a client collects following next cursors, one fetch per table.
  ghost function Walk(tables: seq<set<Key>>, cursor: Key, desc: bool, limit: nat): seq<Key>
    requires 1 <= limit <= MAX_LIMIT
  {
    if tables == [] then []
    else
      var (items, next) := Page(tables[0], cursor, desc, limit);
      items + if next.None? then [] else Walk(tables[1..], next.value, desc, limit)
  }

  // Some fetch says there is nothing more.
  ghost predicate Ends(tables: seq<set<Key>>, cursor: Key, desc: bool, limit: nat)
    requires 1 <= limit <= MAX_LIMIT
  {
    tables != []
    && var next := Page(tables[0], cursor, desc, limit).1;
       next.None? || Ends(tables[1..], next.value, desc, limit)
  }

  // What a full page leaves comes after its last row.
  lemma Rest(rows: seq<Key>, limit: nat, desc: bool)
    requires Ordered(rows, desc) && 1 <= limit < |rows|
    ensures forall k :: k in rows ==> k in rows[..limit] || Less(rows[limit - 1], k, desc)
    ensures Less(rows[limit - 1], rows[limit], desc)
  {
    forall k | k in rows
      ensures k in rows[..limit] || Less(rows[limit - 1], k, desc)
    {
      var i :| 0 <= i < |rows| && rows[i] == k;
      assert i < limit ==> rows[..limit][i] == k;
    }
  }

  // A page cut from the ordered rows beyond the cursor.
  ghost predicate CutFrom(rest: set<Key>, items: seq<Key>, next: Option<Key>, desc: bool, limit: nat) {
    && Ordered(items, desc) && (forall k :: k in items ==> k in rest)
    && (next.Some? ==> items != [] && next.value == items[|items| - 1] && |items| == limit)
    && (next.Some? ==> forall k :: k in rest ==> k in items || Less(next.value, k, desc))
    && (next.Some? ==> exists k :: k in rest && Less(next.value, k, desc))
    && (next.None? ==> forall k :: k in rest ==> k in items)
  }

  lemma RowsCut(rest: set<Key>, rows: seq<Key>, desc: bool, limit: nat)
    requires limit >= 1 && Ordered(rows, desc) && forall k :: k in rows <==> k in rest
    ensures CutFrom(rest, if |rows| <= limit then rows else rows[..limit],
                    if |rows| <= limit then None else Some(rows[limit - 1]), desc, limit)
  {
    if |rows| > limit {
      Rest(rows, limit, desc);
      assert rows[limit] in rows;
    }
  }

  lemma PageFacts(s: set<Key>, cursor: Key, desc: bool, limit: nat)
    requires 1 <= limit <= MAX_LIMIT && forall k :: k in s ==> k.id != 0
    ensures var (items, next) := Page(s, cursor, desc, limit);
            && Ordered(items, desc)
            && (forall k :: k in items ==> k in Beyond(s, Position(cursor), desc))
            && (next.Some? ==> items != [] && next.value == items[|items| - 1] && !IsZero(next.value) && |items| == limit)
            && (next.Some? ==> forall k :: k in Beyond(s, Position(cursor), desc) ==> k in items || Less(next.value, k, desc))
            && (next.Some? ==> exists k :: k in s && Less(next.value, k, desc))
            && (next.None? ==> forall k :: k in Beyond(s, Position(cursor), desc) ==> k in items)
  {
    var rest := Beyond(s, Position(cursor), desc);
    PageExact(s, cursor, desc, limit);
    ListingExact(rest, desc);
    RowsCut(rest, Listing(rest, desc), desc, limit);
    var (items, next) := Page(s, cursor, desc, limit);
    if next.Some? {
      assert next.value in items;
    }
  }

  // No row is returned twice, whatever is inserted meanwhile: the walk is
  // strictly ordered, and everything in it lies beyond the cursor.
  lemma {:induction false} WalkOrdered(tables: seq<set<Key>>, cursor: Key, desc: bool, limit: nat)
    requires 1 <= limit <= MAX_LIMIT && ProperIds(tables) && Growing(tables)
    ensures var walk := Walk(tables, cursor, desc, limit);
            && Ordered(walk, desc) && Sorted(walk, desc)
            && (forall k :: k in walk ==> k in Beyond(tables[|tables| - 1], Position(cursor), desc))
  {
    if tables != [] {
      var (items, next) := Page(tables[0], cursor, desc, limit);
      PageFacts(tables[0], cursor, desc, limit);
      if next.Some? {
        WalkOrdered(tables[1..], next.value, desc, limit);
        var rest := Walk(tables[1..], next.value, desc, limit);
        forall i, j | 0 <= i < |items| && 0 <= j < |rest|
          ensures Less(items[i], rest[j], desc)
        {
          assert rest[j] in rest;
          assert Less(next.value, rest[j], desc);
        }
        forall k | k in rest
          ensures k in Beyond(tables[|tables| - 1], Position(cursor), desc)
        {
          assert items[|items| - 1] in items;
          assert Less(next.value, k, desc);
        }
      }
    }
    OrderedSorted(Walk(tables, cursor, desc, limit), desc);
  }

  // A walk that ends has returned every row that was there at its first
  // fetch (and, with the lemma above, exactly once).
  lemma {:induction false} WalkComplete(tables: seq<set<Key>>, cursor: Key, desc: bool, limit: nat, k: Key)
    requires 1 <= limit <= MAX_LIMIT && ProperIds(tables) && Growing(tables)
    requires Ends(tables, cursor, desc, limit)
    requires k in Beyond(tables[0], Position(cursor), desc)
    ensures k in Walk(tables, cursor, desc, limit)
  {
    var (items, next) := Page(tables[0], cursor, desc, limit);
    PageFacts(tables[0], cursor, desc, limit);
    if next.Some? && k !in items {
      assert k in tables[1];
      WalkComplete(tables[1..], next.value, desc, limit, k);
    }
  }

  // A next cursor is never a dead end: the page behind it has a row.
  lemma NoEmptyExtraPage(s: set<Key>, later: set<Key>, cursor: Key, desc: bool, limit: nat)
    requires 1 <= limit <= MAX_LIMIT && s <= later && forall k :: k in later ==> k.id != 0
    requires Page(s, cursor, desc, limit).1.Some?
    ensures Page(later, Page(s, cursor, desc, limit).1.value, desc, limit).0 != []
  {
    var next := Page(s, cursor, desc, limit).1.value;
    PageFacts(s, cursor, desc, limit);
    PageFacts(later, next, desc, limit);
    var k :| k in s && Less(next, k, desc);
    assert k in Beyond(later, Position(next), desc);
  }

  lemma {:induction false} WalkLength(tables: seq<set<Key>>, cursor: Key, desc: bool, limit: nat)
    requires 1 <= limit <= MAX_LIMIT && ProperIds(tables)
    requires !Ends(tables, cursor, desc, limit)
    ensures |Walk(tables, cursor, desc, limit)| == |tables| * limit
  {
    if tables != [] {
      var (items, next) := Page(tables[0], cursor, desc, limit);
      PageFacts(tables[0], cursor, desc, limit);
      WalkLength(tables[1..], next.value, desc, limit);
      assert |tables| * limit == limit + (|tables| - 1) * limit;
    }
  }

  function Members(s: seq<Key>): set<Key> {
    set k | k in s
  }

  lemma {:induction false} OrderedCount(s: seq<Key>, desc: bool)
    requires Ordered(s, desc)
    ensures |Members(s)| == |s|
  {
    if s != [] {
      TailMembers(s, s[0], desc);
      OrderedCount(s[1..], desc);
      assert Members(s) == Members(s[1..]) + {s[0]};
    }
  }

  lemma SubsetCount(a: set<Key>, b: set<Key>)
    requires a <= b
    ensures |a| <= |b|
  {
    assert b == a + (b - a);
  }

  // The walk ends: it cannot fetch more full pages than the rows that will
  // ever be inserted can fill.
  lemma WalkTerminates(tables: seq<set<Key>>, cursor: Key, desc: bool, limit: nat)
    requires 1 <= limit <= MAX_LIMIT && ProperIds(tables) && Growing(tables) && tables != []
    requires |tables| * limit > |tables[|tables| - 1]|
    ensures Ends(tables, cursor, desc, limit)
  {
    if !Ends(tables, cursor, desc, limit) {
      var walk := Walk(tables, cursor, desc, limit);
      WalkLength(tables, cursor, desc, limit);
      WalkOrdered(tables, cursor, desc, limit);
      OrderedCount(walk, desc);
      SubsetCount(Members(walk), tables[|tables| - 1]);
    }
  }

  // Over a table that does not change, the pages put together are the listing.
  lemma WalkFixed(tables: seq<set<Key>>, s: set<Key>, cursor: Key, desc: bool, limit: nat)
    requires 1 <= limit <= MAX_LIMIT && tables != []
    requires forall i :: 0 <= i < |tables| ==> tables[i] == s
    requires forall k :: k in s ==> k.id != 0
    requires Ends(tables, cursor, desc, limit)
    ensures Walk(tables, cursor, desc, limit) == Listing(Beyond(s, Position(cursor), desc), desc)
  {
    var walk, all := Walk(tables, cursor, desc, limit), Beyond(s, Position(cursor), desc);
    WalkOrdered(tables, cursor, desc, limit);
    ListingExact(all, desc);
    forall k | k in all
      ensures k in walk
    {
      WalkComplete(tables, cursor, desc, limit, k);
    }
    OrderedUnique(walk, Listing(all, desc), desc);
  }
}
