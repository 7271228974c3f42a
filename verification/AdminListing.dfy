/** The admin's cache listing: a backend page joined with read statistics and sorted for display. */
module AdminListing {
  import opened Wrappers
  import opened Names
  import opened Listing
  import opened CacheStore

  const DEFAULT_PAGE := 50
  const MAX_PAGE := 500

  datatype Row = Row(hash: string, size: int, modTime: int, readCount: int, lastReadAt: Option<int>)

  /** The comparator: read entries first, latest read first; then the latest modified. */
  predicate Before(a: Row, b: Row) {
    if a.lastReadAt.Some? != b.lastReadAt.Some? then a.lastReadAt.Some?
    else if a.lastReadAt.Some? then a.lastReadAt.value > b.lastReadAt.value
    else a.modTime > b.modTime
  }

  /** What `sort.Slice` needs of its comparator: a strict weak order. */
  lemma BeforeIsStrictWeakOrder(a: Row, b: Row, c: Row)
    ensures !Before(a, a)
    ensures Before(a, b) && Before(b, c) ==> Before(a, c)
    ensures !Before(a, b) && !Before(b, c) ==> !Before(a, c)
  {
  }

  /** Sorted: nothing that should come earlier comes later. */
  ghost predicate Sorted(rows: seq<Row>) {
    forall i, j :: 0 <= i < j < |rows| ==> !Before(rows[j], rows[i])
  }

  /** What the user sees of a sorted page: first the read entries, latest read first, then the
      never read ones, latest modified first. */
  lemma {:induction false} SortedMeans(rows: seq<Row>) returns (k: nat)
    requires Sorted(rows)
    ensures k <= |rows|
    ensures forall i :: 0 <= i < |rows| ==> (rows[i].lastReadAt.Some? <==> i < k)
    ensures forall i, j :: 0 <= i < j < k ==> rows[i].lastReadAt.value >= rows[j].lastReadAt.value
    ensures forall i, j :: k <= i < j < |rows| ==> rows[i].modTime >= rows[j].modTime
  {
    if rows == [] {
      k := 0;
    } else {
      var n := |rows| - 1;
      k := SortedMeans(rows[..n]);
      assert forall i :: 0 <= i < n ==> rows[..n][i] == rows[i] && !Before(rows[n], rows[i]);
      if rows[n].lastReadAt.Some? {
        k := n + 1;
      }
    }
  }

  /** The read statistics of one hash, zero when it has no row. */
  function Joined(e: Entry, table: ReadTable): Row {
    var stats := StatsOf(table, e.hash);
    Row(e.hash, e.size, e.modTime, stats.readCount, stats.lastReadAt)
  }

  function JoinAll(es: seq<Entry>, table: ReadTable): (rows: seq<Row>)
    ensures |rows| == |es| && forall i :: 0 <= i < |es| ==> rows[i] == Joined(es[i], table)
  {
    if es == [] then [] else JoinAll(es[..|es| - 1], table) + [Joined(es[|es| - 1], table)]
  }

  // ---------------------------------------------------------------- sorting

  function Place(rows: seq<Row>, r: Row): (out: seq<Row>)
    requires Sorted(rows)
    ensures Sorted(out) && multiset(out) == multiset(rows) + multiset{r}
  {
    if rows == [] then [r]
    else if Before(r, rows[0]) then
      BeforeAll(rows, r);
      assert multiset([r] + rows) == multiset(rows) + multiset{r};
      [r] + rows
    else
      var rest := Place(rows[1..], r);
      assert rows == [rows[0]] + rows[1..];
      AfterHead(rows, r, rest);
      [rows[0]] + rest
  }

  lemma BeforeAll(rows: seq<Row>, r: Row)
    requires rows != [] && Sorted(rows) && Before(r, rows[0])
    ensures Sorted([r] + rows)
  {
    forall i, j | 0 <= i < j < |rows| + 1 ensures !Before(([r] + rows)[j], ([r] + rows)[i]) {
      if i == 0 {
        BeforeIsStrictWeakOrder(r, rows[j - 1], rows[0]);
        BeforeIsStrictWeakOrder(rows[j - 1], r, rows[0]);
        BeforeIsStrictWeakOrder(rows[0], rows[0], rows[0]);
      }
    }
  }

  lemma AfterHead(rows: seq<Row>, r: Row, rest: seq<Row>)
    requires rows != [] && Sorted(rows) && !Before(r, rows[0])
    requires Sorted(rest) && multiset(rest) == multiset(rows[1..]) + multiset{r}
    ensures Sorted([rows[0]] + rest)
  {
    forall j | 0 <= j < |rest| ensures !Before(rest[j], rows[0]) {
      assert rest[j] in multiset(rest);
      if rest[j] != r {
        assert rest[j] in rows[1..];
        var k :| 0 <= k < |rows| - 1 && rows[1..][k] == rest[j];
        assert rows[k + 1] == rest[j];
      }
    }
  }

  function SortRows(rows: seq<Row>): (out: seq<Row>)
    ensures Sorted(out) && multiset(out) == multiset(rows)
  {
    if rows == [] then []
    else
      assert rows == rows[..|rows| - 1] + [rows[|rows| - 1]];
      Place(SortRows(rows[..|rows| - 1]), rows[|rows| - 1])
  }

  // ---------------------------------------------------------------- the handler

  datatype Reply = InternalError | Listed(rows: seq<Row>, nextCursor: string)

  function PageLimit(query: Option<int>): int {
    if query.Some? && 0 < query.value <= MAX_PAGE then query.value else DEFAULT_PAGE
  }

  /** The loop that joins the page with the statistics. */
  method JoinStats(entries: seq<Entry>, known: ReadTable) returns (rows: seq<Row>)
    ensures rows == JoinAll(entries, known)
  {
    rows := [];
    for i := 0 to |entries|
      invariant rows == JoinAll(entries[..i], known)
    {
      var e := entries[i];
      assert entries[..i + 1][..i] == entries[..i];
      var row := Row(e.hash, e.size, e.modTime, 0, None);
      if e.hash in known {
        row := row.(readCount := known[e.hash].readCount, lastReadAt := known[e.hash].lastReadAt);
      }
      rows := rows + [row];
    }
    assert entries[..|entries|] == entries;
  }

  /** A row shows an entry: its hash, size and modification time, and its read count and last read, or
      none when there is no read row. */
  predicate Shows(row: Row, e: Entry, known: ReadTable) {
    && row.hash == e.hash && row.size == e.size && row.modTime == e.modTime
    && row.readCount == (if e.hash in known then known[e.hash].readCount else 0)
    && row.lastReadAt == (if e.hash in known then known[e.hash].lastReadAt else None)
  }

  lemma {:induction false} JoinedShows(entries: seq<Entry>, known: ReadTable)
    ensures |JoinAll(entries, known)| == |entries|
    ensures forall i :: 0 <= i < |entries| ==> Shows(JoinAll(entries, known)[i], entries[i], known)
  {
    if entries != [] {
      JoinedShows(entries[..|entries| - 1], known);
    }
  }

  /** Rows that are the joined page in some order show its entries, all of them and nothing else. */
  lemma PageIsShown(rows: seq<Row>, entries: seq<Entry>, known: ReadTable)
    requires multiset(rows) == multiset(JoinAll(entries, known))
    ensures |rows| == |entries|
    ensures forall row :: row in rows ==> exists e :: e in entries && Shows(row, e, known)
    ensures forall e :: e in entries ==> exists row :: row in rows && Shows(row, e, known)
  {
    var joined := JoinAll(entries, known);
    JoinedShows(entries, known);
    assert |multiset(rows)| == |multiset(joined)|;
    forall row | row in rows ensures exists e :: e in entries && Shows(row, e, known) {
      assert row in multiset(joined);
      var i :| 0 <= i < |joined| && joined[i] == row;
      assert entries[i] in entries;
    }
    forall e | e in entries ensures exists row :: row in rows && Shows(row, e, known) {
      var i :| 0 <= i < |entries| && entries[i] == e;
      assert joined[i] in multiset(rows);
    }
  }

  /** The limit of a page: the requested one from 1 to 500, and 50 for anything else. */
  lemma PageLimitMeans(query: Option<int>)
    ensures query.Some? && 1 <= query.value <= 500 ==> PageLimit(query) == query.value
    ensures query.None? || query.value <= 0 || query.value > 500 ==> PageLimit(query) == 50
  {
  }

  /** `handleListCache`: `query` is the parsed limit, if any; `table` is None when the statistics
      cannot be loaded, which only costs their display. The page shown is a permutation of the
      backend's page, in display order, and the cursor is the backend's. */
  method HandleListCache(dir: Option<seq<DirEntry>>, stat: Listing.Stats, table: Option<ReadTable>,
                         cursor: string, query: Option<int>)
    returns (r: Reply)
    requires dir.Some? ==> CacheDir(dir.value)
    ensures r.InternalError? <==> dir.None?
    ensures dir.Some? ==>
      var page := PageSpec(dir.value, stat, cursor, PageLimit(query));
      var known := if table.Some? then table.value else map[];
      && r.nextCursor == page.nextCursor && Sorted(r.rows)
      && multiset(r.rows) == multiset(JoinAll(page.entries, known))
      && |r.rows| <= MAX_PAGE
  {
    var limit := DEFAULT_PAGE;
    if query.Some? {
      if 0 < query.value <= MAX_PAGE {
        limit := query.value;
      }
    }
    var page := List(dir, stat, cursor, limit);
    if page.None? {
      return InternalError;
    }
    var known: ReadTable := if table.Some? then table.value else map[];
    var rows := JoinStats(page.value.entries, known);
    r := Listed(SortRows(rows), page.value.nextCursor);
    PageMeaning(dir.value, stat, cursor, limit);
    assert |multiset(r.rows)| == |multiset(rows)|;
  }

  // ---------------------------------------------------------------- walking sorted pages

  /** What a user collects by following the cursor through the sorted pages. */
  ghost function AdminWalk(env: nat -> Snapshot, tables: nat -> ReadTable, t: nat, cursor: string, limit: int): seq<Row>
    requires forall i :: CacheDir(env(i).dir)
    decreases Remaining(cursor)
  {
    var page := PageSpec(env(t).dir, env(t).stat, cursor, limit);
    NextCursorAdvances(env(t).dir, env(t).stat, cursor, limit);
    SortRows(JoinAll(page.entries, tables(t)))
      + (if page.nextCursor == "" then [] else AdminWalk(env, tables, t + 1, page.nextCursor, limit))
  }

  function Count(rows: seq<Row>, hash: string): nat {
    if rows == [] then 0 else Count(rows[..|rows| - 1], hash) + (if rows[|rows| - 1].hash == hash then 1 else 0)
  }

  function CountEntries(es: seq<Entry>, hash: string): nat {
    if es == [] then 0 else CountEntries(es[..|es| - 1], hash) + (if es[|es| - 1].hash == hash then 1 else 0)
  }

  lemma {:induction false} CountJoined(es: seq<Entry>, table: ReadTable, hash: string)
    ensures Count(JoinAll(es, table), hash) == CountEntries(es, hash)
  {
    if es != [] {
      CountJoined(es[..|es| - 1], table, hash);
      var rows := JoinAll(es, table);
      assert rows[..|rows| - 1] == JoinAll(es[..|es| - 1], table);
    }
  }

  lemma {:induction false} CountConcat(a: seq<Row>, b: seq<Row>, hash: string)
    ensures Count(a + b, hash) == Count(a, hash) + Count(b, hash)
  {
    if b == [] {
      assert a + b == a;
    } else {
      CountConcat(a, b[..|b| - 1], hash);
      assert (a + b)[..|a + b| - 1] == a + b[..|b| - 1];
    }
  }

  lemma {:induction false} CountEntriesConcat(a: seq<Entry>, b: seq<Entry>, hash: string)
    ensures CountEntries(a + b, hash) == CountEntries(a, hash) + CountEntries(b, hash)
  {
    if b == [] {
      assert a + b == a;
    } else {
      CountEntriesConcat(a, b[..|b| - 1], hash);
      assert (a + b)[..|a + b| - 1] == a + b[..|b| - 1];
    }
  }

  lemma {:induction false} CountPlace(rows: seq<Row>, r: Row, hash: string)
    requires Sorted(rows)
    ensures Count(Place(rows, r), hash) == Count(rows, hash) + (if r.hash == hash then 1 else 0)
  {
    assert Count([r], hash) == (if r.hash == hash then 1 else 0) by { assert [r][..0] == []; }
    if rows == [] {
    } else if Before(r, rows[0]) {
      CountConcat([r], rows, hash);
    } else {
      CountPlace(rows[1..], r, hash);
      CountConcat([rows[0]], Place(rows[1..], r), hash);
      CountConcat([rows[0]], rows[1..], hash);
      assert rows == [rows[0]] + rows[1..];
    }
  }

  lemma {:induction false} CountSorted(rows: seq<Row>, hash: string)
    ensures Count(SortRows(rows), hash) == Count(rows, hash)
  {
    if rows != [] {
      CountSorted(rows[..|rows| - 1], hash);
      CountPlace(SortRows(rows[..|rows| - 1]), rows[|rows| - 1], hash);
    }
  }

  lemma CountPage(es: seq<Entry>, table: ReadTable, rows: seq<Row>, entries: seq<Entry>, hash: string)
    requires Count(rows, hash) == CountEntries(entries, hash)
    ensures Count(SortRows(JoinAll(es, table)) + rows, hash) == CountEntries(es + entries, hash)
  {
    CountConcat(SortRows(JoinAll(es, table)), rows, hash);
    CountEntriesConcat(es, entries, hash);
    CountSorted(JoinAll(es, table), hash);
    CountJoined(es, table, hash);
  }

  /** Sorting each page does not disturb the walk: the cursor is taken before sorting, so every
      hash is shown exactly as often as the plain walk returns it. */
  lemma {:induction false} AdminWalkCounts(env: nat -> Snapshot, tables: nat -> ReadTable, t: nat,
                                          cursor: string, limit: int, hash: string)
    requires forall i :: CacheDir(env(i).dir)
    ensures Count(AdminWalk(env, tables, t, cursor, limit), hash) == CountEntries(Walk(env, t, cursor, limit), hash)
    decreases Remaining(cursor)
  {
    var next := PageSpec(env(t).dir, env(t).stat, cursor, limit).nextCursor;
    NextCursorAdvances(env(t).dir, env(t).stat, cursor, limit);
    if next != "" {
      AdminWalkCounts(env, tables, t + 1, next, limit, hash);
    }
    AdminWalkStep(env, tables, t, cursor, limit, hash);
  }

  lemma AdminWalkStep(env: nat -> Snapshot, tables: nat -> ReadTable, t: nat, cursor: string, limit: int, hash: string)
    requires forall i :: CacheDir(env(i).dir)
    requires var next := PageSpec(env(t).dir, env(t).stat, cursor, limit).nextCursor;
      next != "" ==>
        Count(AdminWalk(env, tables, t + 1, next, limit), hash) == CountEntries(Walk(env, t + 1, next, limit), hash)
    ensures Count(AdminWalk(env, tables, t, cursor, limit), hash) == CountEntries(Walk(env, t, cursor, limit), hash)
  {
    var page := PageSpec(env(t).dir, env(t).stat, cursor, limit);
    var rows: seq<Row>, entries: seq<Entry> := [], [];
    if page.nextCursor != "" {
      rows, entries := AdminWalk(env, tables, t + 1, page.nextCursor, limit), Walk(env, t + 1, page.nextCursor, limit);
    }
    CountPage(page.entries, tables(t), rows, entries, hash);
  }

  lemma {:induction false} CountAscending(cursor: string, es: seq<Entry>, hash: string)
    requires AscendsFrom(cursor, es)
    ensures CountEntries(es, hash) == if exists i :: 0 <= i < |es| && es[i].hash == hash then 1 else 0
  {
    if es != [] {
      var n := |es| - 1;
      CountAscending(cursor, es[..n], hash);
      BelowIrreflexive(es[n].hash);
      if i :| 0 <= i < n && es[..n][i].hash == hash {
        assert es[i].hash == hash && Below(es[i].hash, es[n].hash);
      }
      if es[n].hash != hash {
        forall i | 0 <= i < |es| && es[i].hash == hash ensures es[..n][i].hash == hash {}
      }
    }
  }

  /** Walking the sorted pages shows no entry twice, and every entry that stays in the store
      exactly once. */
  lemma AdminWalkExact(env: nat -> Snapshot, tables: nat -> ReadTable, limit: int, hash: string)
    requires forall i :: CacheDir(env(i).dir)
    ensures Count(AdminWalk(env, tables, 0, "", limit), hash) <= 1
    ensures (forall i :: hash in Kept(env(i).dir) && hash in env(i).stat) ==>
      Count(AdminWalk(env, tables, 0, "", limit), hash) == 1
  {
    AdminWalkCounts(env, tables, 0, "", limit, hash);
    WalkAscends(env, 0, "", limit);
    CountAscending("", Walk(env, 0, "", limit), hash);
    if forall i :: hash in Kept(env(i).dir) && hash in env(i).stat {
      assert hash in Kept(env(0).dir);
      var i := WalkCovers(env, 0, "", limit, hash);
    }
  }
}
