/** The stored artifacts and the read-tracking table as the janitor and the admin API use
    them: each call may be preceded by moves of other clients, and may fail. */
module CacheStore {
  import opened Wrappers
  import opened Names
  import opened Listing

  datatype ReadStats = ReadStats(readCount: int, lastReadAt: Option<int>)

  type ReadTable = map<string, ReadStats>

  /** `RecordCacheRead`: the upsert on the `cache_reads` table. */
  function RecordRead(table: ReadTable, hash: string, now: int): ReadTable {
    table[hash := ReadStats(if hash in table then table[hash].readCount + 1 else 1, Some(now))]
  }

  function RecordReads(table: ReadTable, hits: seq<(string, int)>): ReadTable {
    if hits == [] then table
    else RecordRead(RecordReads(table, hits[..|hits| - 1]), hits[|hits| - 1].0, hits[|hits| - 1].1)
  }

  /** One statement on the table. */
  datatype RowChange = Recorded(hash: string, now: int) | Cleared(hash: string)

  function Replayed(table: ReadTable, log: seq<RowChange>): ReadTable {
    if log == [] then table
    else
      var before := Replayed(table, log[..|log| - 1]);
      match log[|log| - 1]
      case Recorded(hash, now) => RecordRead(before, hash, now)
      case Cleared(hash) => before - {hash}
  }

  function Recordings(hits: seq<(string, int)>): seq<RowChange> {
    seq(|hits|, i requires 0 <= i < |hits| => Recorded(hits[i].0, hits[i].1))
  }

  /** The reads in a log, in order, and the hashes it clears. */
  function ReadsIn(log: seq<RowChange>): seq<(string, int)> {
    if log == [] then []
    else
      var last := log[|log| - 1];
      ReadsIn(log[..|log| - 1]) + if last.Recorded? then [(last.hash, last.now)] else []
  }

  function ClearedIn(log: seq<RowChange>): set<string> {
    set i | 0 <= i < |log| && log[i].Cleared? :: log[i].hash
  }

  lemma {:induction false} ReplayRecordings(table: ReadTable, log: seq<RowChange>, hits: seq<(string, int)>)
    ensures Replayed(table, log + Recordings(hits)) == RecordReads(Replayed(table, log), hits)
    ensures ReadsIn(log + Recordings(hits)) == ReadsIn(log) + hits
    ensures ClearedIn(log + Recordings(hits)) == ClearedIn(log)
  {
    var all := log + Recordings(hits);
    if hits == [] {
      assert all == log;
    } else {
      var n := |hits| - 1;
      ReplayRecordings(table, log, hits[..n]);
      assert all[..|all| - 1] == log + Recordings(hits[..n]);
      assert hits == hits[..n] + [hits[n]];
    }
    forall h ensures h in ClearedIn(all) <==> h in ClearedIn(log) {
      if h in ClearedIn(log) { var i :| 0 <= i < |log| && log[i] == Cleared(h); assert all[i] == Cleared(h); }
    }
  }

  lemma ReplayClear(table: ReadTable, log: seq<RowChange>, hash: string)
    ensures Replayed(table, log + [Cleared(hash)]) == Replayed(table, log) - {hash}
    ensures ReadsIn(log + [Cleared(hash)]) == ReadsIn(log)
    ensures ClearedIn(log + [Cleared(hash)]) == ClearedIn(log) + {hash}
  {
    var all := log + [Cleared(hash)];
    assert all[..|log|] == log;
    forall h ensures h in ClearedIn(all) <==> h in ClearedIn(log) + {hash} {
      if h in ClearedIn(log) { var i :| 0 <= i < |log| && log[i] == Cleared(h); assert all[i] == Cleared(h); }
      if h == hash { assert all[|log|] == Cleared(h); }
    }
  }

  /** Without reads in it, a log takes the cleared rows and nothing else. */
  lemma {:induction false} ReplayWithoutReads(table: ReadTable, log: seq<RowChange>)
    requires ReadsIn(log) == []
    ensures Replayed(table, log) == table - ClearedIn(log)
  {
    if log != [] {
      var n := |log| - 1;
      ReplayWithoutReads(table, log[..n]);
      assert log == log[..n] + [Cleared(log[n].hash)];
      ReplayClear(table, log[..n], log[n].hash);
    }
  }

  /** What a log makes of one row. */
  function RowAfter(row: Option<ReadStats>, log: seq<RowChange>, hash: string): Option<ReadStats> {
    if log == [] then row
    else
      var before := RowAfter(row, log[..|log| - 1], hash);
      var last := log[|log| - 1];
      if last.hash != hash then before
      else if last.Cleared? then None
      else Some(ReadStats(if before.Some? then before.value.readCount + 1 else 1, Some(last.now)))
  }

  function RowIn(table: ReadTable, hash: string): Option<ReadStats> {
    if hash in table then Some(table[hash]) else None
  }

  /** Row by row: a row that is cleared starts again with the reads recorded after that, and any
      other goes on counting. */
  lemma {:induction false} ReplayedRow(table: ReadTable, log: seq<RowChange>, hash: string)
    ensures RowIn(Replayed(table, log), hash) == RowAfter(RowIn(table, hash), log, hash)
    ensures hash !in ClearedIn(log) && (forall i :: 0 <= i < |log| ==> log[i].hash != hash) ==>
      RowIn(Replayed(table, log), hash) == RowIn(table, hash)
  {
    if log != [] {
      ReplayedRow(table, log[..|log| - 1], hash);
      if forall i :: 0 <= i < |log| ==> log[i].hash != hash {
        assert forall i :: 0 <= i < |log| - 1 ==> log[..|log| - 1][i] == log[i];
        assert hash !in ClearedIn(log[..|log| - 1]);
      }
    }
  }

  /** The zero value a Go map lookup answers for a hash without a row. */
  function StatsOf(table: ReadTable, hash: string): ReadStats {
    if hash in table then table[hash] else ReadStats(0, None)
  }

  type Artifacts = map<string, Info>

  /** What other clients do between two calls: uploads (of which those of stored hashes are
      refused), recorded reads, and temporary files that come and go. */
  datatype Moves = Moves(uploads: Artifacts, hits: seq<(string, int)>, temps: set<string>)

  ghost predicate Sane(m: Moves) {
    (forall h :: h in m.uploads ==> ValidHash(h)) && forall n :: n in m.temps ==> IsTemp(n)
  }

  /** The reads that others record between two moments. */
  ghost function HitsBetween(env: nat -> Moves, start: nat, end: nat): seq<(string, int)> {
    if end <= start then [] else HitsBetween(env, start, end - 1) + env(end - 1).hits
  }

  /** The rows are the ones at the start with the log replayed, and the reads in the log are those the
      others have recorded since. */
  ghost predicate LogFits(base: ReadTable, log: seq<RowChange>, stats: ReadTable,
                          env: nat -> Moves, begun: nat, clock: nat) {
    stats == Replayed(base, log) && begun <= clock && ReadsIn(log) == HitsBetween(env, begun, clock)
  }

  lemma LogMoves(base: ReadTable, log: seq<RowChange>, stats: ReadTable, env: nat -> Moves, begun: nat, clock: nat)
    requires LogFits(base, log, stats, env, begun, clock)
    ensures var hits := env(clock).hits;
      && LogFits(base, log + Recordings(hits), RecordReads(stats, hits), env, begun, clock + 1)
      && ClearedIn(log + Recordings(hits)) == ClearedIn(log)
  {
    ReplayRecordings(base, log, env(clock).hits);
  }

  lemma LogClears(base: ReadTable, log: seq<RowChange>, stats: ReadTable,
                  env: nat -> Moves, begun: nat, clock: nat, h: string)
    requires LogFits(base, log, stats, env, begun, clock)
    ensures LogFits(base, log + [Cleared(h)], stats - {h}, env, begun, clock)
    ensures ClearedIn(log + [Cleared(h)]) == ClearedIn(log) + {h}
  {
    ReplayClear(base, log, h);
  }

  datatype Outcome = Deleted | WasAbsent | DeleteError

  // ---------------------------------------------------------------- accounting

  /** `visible` is the initial store without `gone` plus what others `uploaded` meanwhile. */
  ghost predicate Accounted(initial: Artifacts, gone: set<string>, uploaded: Artifacts, visible: Artifacts) {
    visible == (initial - gone) + uploaded && uploaded.Keys !! (initial.Keys - gone)
  }

  function Uploaded(uploaded: Artifacts, visible: Artifacts, m: Moves): Artifacts {
    uploaded + (m.uploads - visible.Keys)
  }

  lemma AccountMoves(initial: Artifacts, gone: set<string>, uploaded: Artifacts, visible: Artifacts, m: Moves)
    requires Accounted(initial, gone, uploaded, visible)
    ensures Accounted(initial, gone, Uploaded(uploaded, visible, m), m.uploads + visible)
  {
    assert visible.Keys == (initial.Keys - gone) + uploaded.Keys;
  }

  lemma AccountDelete(initial: Artifacts, gone: set<string>, uploaded: Artifacts, visible: Artifacts, hash: string)
    requires Accounted(initial, gone, uploaded, visible) && hash !in uploaded
    ensures Accounted(initial, gone + {hash}, uploaded, visible - {hash})
  {
  }

  // ---------------------------------------------------------------- sorted directory

  function Insert(names: seq<string>, n: string): (r: seq<string>)
    requires Ascending(names) && n !in names
    ensures Ascending(r) && forall m :: m in r <==> m == n || m in names
  {
    BelowIsStrictTotal();
    if names == [] then [n]
    else if Below(n, names[0]) then [n] + names
    else
      assert Below(names[0], n);
      assert forall m :: m in names[1..] ==> Below(names[0], m);
      assert names == [names[0]] + names[1..];
      [names[0]] + Insert(names[1..], n)
  }

  method Sort(names: set<string>) returns (sorted: seq<string>)
    ensures Ascending(sorted) && forall n :: n in sorted <==> n in names
  {
    sorted := [];
    var rest := names;
    while rest != {}
      invariant rest <= names && Ascending(sorted)
      invariant forall n :: n in sorted <==> n in names && n !in rest
      decreases rest
    {
      var n :| n in rest;
      sorted := Insert(sorted, n);
      rest := rest - {n};
    }
  }

  // ---------------------------------------------------------------- a page of the store

  /** What `List` answers about the store, whatever temporary files there are. */
  ghost predicate IsPage(visible: Artifacts, cursor: string, p: ListPage) {
    && AscendsFrom(cursor, p.entries)
    && (forall i :: 0 <= i < |p.entries| ==> Current(visible, p.entries[i]))
    && (forall h :: h in visible && Below(cursor, h) ==> OnPage(p, h))
    && (p.nextCursor != "" ==> Below(cursor, p.nextCursor) && ValidHash(p.nextCursor))
    && BeforeNext(p)
  }

  /** No entry of a page comes after its next cursor. */
  ghost predicate BeforeNext(p: ListPage) {
    forall i :: 0 <= i < |p.entries| ==> p.nextCursor == "" || !Below(p.nextCursor, p.entries[i].hash)
  }

  predicate Current(visible: Artifacts, e: Entry) {
    e.hash in visible && visible[e.hash] == Info(e.size, e.modTime)
  }

  /** `h` is on the page, or the next cursor still has it in front. */
  ghost predicate OnPage(p: ListPage, h: string) {
    (exists i :: 0 <= i < |p.entries| && p.entries[i].hash == h) || (p.nextCursor != "" && Below(p.nextCursor, h))
  }

  lemma PageIsExact(dir: seq<DirEntry>, visible: Artifacts, cursor: string, limit: int)
    requires CacheDir(dir) && forall n :: n in Kept(dir) <==> n in visible
    ensures IsPage(visible, cursor, PageSpec(dir, visible, cursor, limit))
  {
    var p := PageSpec(dir, visible, cursor, limit);
    PageMeaning(dir, visible, cursor, limit);
    assert forall i :: 0 <= i < |p.entries| ==> EntryFits(dir, visible, cursor, p.nextCursor, p.entries[i]);
    forall h | h in visible && Below(cursor, h) ensures OnPage(p, h) {
      PageCovers(dir, visible, cursor, limit, h);
    }
  }

  class Store {
    var visible: Artifacts
    var temps: set<string>
    var stats: ReadTable
    var clock: nat
    const env: nat -> Moves
    const fails: nat -> bool

    /** Since `Watch` was last called: what others uploaded, when that was, the read rows then, and
        what has happened to them. */
    ghost var uploaded: Artifacts
    ghost var begun: nat
    ghost var base: ReadTable
    ghost var log: seq<RowChange>

    ghost predicate Valid()
      reads this
    {
      && (forall h :: h in visible ==> ValidHash(h))
      && (forall n :: n in temps ==> IsTemp(n))
      && (forall t :: Sane(env(t)))
      && LogFits(base, log, stats, env, begun, clock)
    }

    twostate predicate SameWatch()
      reads this
    {
      base == old(base) && begun == old(begun)
    }

    constructor (visible: Artifacts, stats: ReadTable, env: nat -> Moves, fails: nat -> bool)
      requires (forall h :: h in visible ==> ValidHash(h)) && forall t :: Sane(env(t))
      ensures Valid() && this.visible == visible && this.stats == stats && this.env == env && this.fails == fails
    {
      this.visible, this.temps, this.stats, this.clock := visible, {}, stats, 0;
      this.env, this.fails, this.uploaded := env, fails, map[];
      this.begun, this.base, this.log := 0, stats, [];
    }

    ghost method Watch()
      requires Valid()
      modifies this`uploaded, this`begun, this`base, this`log
      ensures Valid() && uploaded == map[] && begun == clock && base == stats && log == []
    {
      uploaded, begun, base, log := map[], clock, stats, [];
    }

    /** The others move before a call. */
    method Interfere() returns (failed: bool)
      requires Valid()
      modifies this
      ensures Valid() && clock == old(clock) + 1 && failed == fails(old(clock))
      ensures SameWatch() && ClearedIn(log) == old(ClearedIn(log))
      ensures visible == env(old(clock)).uploads + old(visible)
      ensures uploaded == Uploaded(old(uploaded), old(visible), env(old(clock)))
      ensures stats == RecordReads(old(stats), env(old(clock)).hits)
    {
      var m := env(clock);
      assert Sane(m);
      failed := fails(clock);
      uploaded := Uploaded(uploaded, visible, m);
      visible, temps := m.uploads + visible, m.temps;
      LogMoves(base, log, stats, env, begun, clock);
      stats, log := RecordReads(stats, m.hits), log + Recordings(m.hits);
      clock := clock + 1;
    }

    /** The directory as `os.ReadDir` returns it. */
    method ReadDir() returns (dir: seq<DirEntry>)
      requires Valid()
      ensures CacheDir(dir) && forall n :: n in Kept(dir) <==> n in visible
    {
      var sorted := Sort(visible.Keys + temps);
      dir := seq(|sorted|, i requires 0 <= i < |sorted| => DirEntry(sorted[i], false));
      forall i | 0 <= i < |dir| ensures dir[i].name != "" {
        assert sorted[i] in sorted;
        if sorted[i] in temps { TempHasDot(sorted[i]); }
      }
      KeptAscending(dir);
      forall n ensures n in Kept(dir) <==> n in visible {
        if n in visible {
          ValidHashIsNotTemp(n);
          var i :| 0 <= i < |sorted| && sorted[i] == n;
          assert dir[i].name == n;
        }
        if n in Kept(dir) {
          var i :| 0 <= i < |dir| && dir[i].name == n && !IsTemp(n);
          assert sorted[i] in sorted;
        }
      }
    }

    method List(cursor: string, limit: int) returns (page: Option<ListPage>)
      requires Valid()
      modifies this
      ensures Valid() && clock == old(clock) + 1
      ensures SameWatch() && ClearedIn(log) == old(ClearedIn(log))
      ensures visible == env(old(clock)).uploads + old(visible)
      ensures uploaded == Uploaded(old(uploaded), old(visible), env(old(clock)))
      ensures stats == RecordReads(old(stats), env(old(clock)).hits)
      ensures page.None? <==> fails(old(clock))
      ensures page.Some? ==> IsPage(visible, cursor, page.value)
    {
      var failed := Interfere();
      var dir := ReadDir();
      page := Listing.List(if failed then None else Some(dir), visible, cursor, limit);
      if page.Some? {
        PageIsExact(dir, visible, cursor, limit);
      }
    }

    method Delete(hash: string) returns (r: Outcome)
      requires Valid()
      modifies this
      ensures Valid() && clock == old(clock) + 1
      ensures SameWatch() && ClearedIn(log) == old(ClearedIn(log))
      ensures var v := env(old(clock)).uploads + old(visible);
        visible == if r.Deleted? then v - {hash} else v
      ensures uploaded == Uploaded(old(uploaded), old(visible), env(old(clock)))
      ensures stats == RecordReads(old(stats), env(old(clock)).hits)
      ensures r.DeleteError? <==> fails(old(clock))
      ensures !r.DeleteError? ==> (r.Deleted? <==> hash in env(old(clock)).uploads || hash in old(visible))
    {
      var failed := Interfere();
      if failed {
        r := DeleteError;
      } else if hash in visible {
        r := Deleted;
        visible := visible - {hash};
      } else {
        r := WasAbsent;
      }
    }

    method ClearStats(hash: string) returns (ok: bool)
      requires Valid()
      modifies this
      ensures Valid() && clock == old(clock) + 1
      ensures SameWatch() && ClearedIn(log) == if ok then old(ClearedIn(log)) + {hash} else old(ClearedIn(log))
      ensures visible == env(old(clock)).uploads + old(visible)
      ensures uploaded == Uploaded(old(uploaded), old(visible), env(old(clock)))
      ensures ok <==> !fails(old(clock))
      ensures var s := RecordReads(old(stats), env(old(clock)).hits);
        stats == if ok then s - {hash} else s
    {
      var failed := Interfere();
      ok := !failed;
      if ok {
        LogClears(base, log, stats, env, begun, clock, hash);
        stats, log := stats - {hash}, log + [Cleared(hash)];
      }
    }

    method LoadStats() returns (r: Option<ReadTable>)
      requires Valid()
      modifies this
      ensures Valid() && clock == old(clock) + 1
      ensures SameWatch() && ClearedIn(log) == old(ClearedIn(log))
      ensures visible == env(old(clock)).uploads + old(visible)
      ensures uploaded == Uploaded(old(uploaded), old(visible), env(old(clock)))
      ensures stats == RecordReads(old(stats), env(old(clock)).hits)
      ensures r.None? <==> fails(old(clock))
      ensures r.Some? ==> r.value == stats
    {
      var failed := Interfere();
      r := if failed then None else Some(stats);
    }
  }
}
