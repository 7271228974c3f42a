/** The background sweep: which entries it judges expendable, and what one pass does to the
    store while other clients upload and read. */
module Janitor {
  import opened Names
  import opened Listing
  import opened CacheStore
  import opened PagedDeletion

  datatype Config = Config(maxAge: int, unreadAfter: int, interval: int)

  const PAGE_LIMIT := 200

  /** Uploads of the other clients carry modification times the sweep does not look behind. */
  ghost predicate RecentUploads(env: nat -> Moves, cutoff: int) {
    forall t, h :: h in env(t).uploads ==> env(t).uploads[h].modTime >= cutoff
  }

  lemma RecentUploadsAreFresh(env: nat -> Moves, table: ReadTable, ageCutoff: int, unreadCutoff: int)
    requires RecentUploads(env, ageCutoff) && RecentUploads(env, unreadCutoff)
    ensures Fresh(env, Expendable(table, ageCutoff, unreadCutoff))
  {
  }

  /** What the rule is for: what is too old goes, and what is older than the unread period and was not
      read within it. */
  predicate Unneeded(table: ReadTable, hash: string, modTime: int, ageCutoff: int, unreadCutoff: int) {
    || modTime < ageCutoff
    || (modTime < unreadCutoff
        && (hash in table && table[hash].lastReadAt.Some? ==> table[hash].lastReadAt.value < unreadCutoff))
  }

  ghost function UnneededIn(store: Artifacts, table: ReadTable, ageCutoff: int, unreadCutoff: int): set<string> {
    set h | h in store && Unneeded(table, h, store[h].modTime, ageCutoff, unreadCutoff)
  }

  lemma ExpendableMeans(store: Artifacts, table: ReadTable, ageCutoff: int, unreadCutoff: int)
    ensures Marked(store, Expendable(table, ageCutoff, unreadCutoff))
      == UnneededIn(store, table, ageCutoff, unreadCutoff)
  {
  }

  class Janitor {
    const backend: Store
    const cfg: Config

    constructor (backend: Store, cfg: Config)
      ensures this.backend == backend && this.cfg == cfg
    {
      this.backend, this.cfg := backend, cfg;
    }

    /** The body of the inner loop: judge one entry. */
    method JudgeEntry(pass: Pass, table: ReadTable, ageCutoff: int, unreadCutoff: int,
                      cursor: string, p: ListPage, i: nat)
      returns (removed: bool)
      requires pass.rule == Expendable(table, ageCutoff, unreadCutoff)
      requires i < |p.entries| && pass.On(cursor, p, i) && pass.Tidy()
      modifies pass.backend, pass`gone, pass`skipped, pass`uncleared
      ensures pass.On(cursor, p, i + 1) && pass.Tidy()
      ensures |pass.gone| == |old(pass.gone)| + (if removed then 1 else 0)
    {
      var e := p.entries[i];
      removed := false;
      if !ShouldDelete(e.modTime, StatsOf(table, e.hash), ageCutoff, unreadCutoff) {
        pass.Keep(cursor, p, i);
        return;
      }
      removed := pass.Remove(cursor, p, i);
    }

    /** The inner loop: judge the entries of one page. */
    method JudgePage(pass: Pass, table: ReadTable, ageCutoff: int, unreadCutoff: int, cursor: string, p: ListPage)
      returns (deleted: nat)
      requires pass.rule == Expendable(table, ageCutoff, unreadCutoff)
      requires pass.On(cursor, p, 0) && pass.Tidy()
      modifies pass.backend, pass`gone, pass`skipped, pass`uncleared
      ensures pass.On(cursor, p, |p.entries|) && pass.Tidy()
      ensures |pass.gone| == |old(pass.gone)| + deleted
    {
      deleted := 0;
      for i := 0 to |p.entries|
        invariant pass.On(cursor, p, i) && pass.Tidy()
        invariant |pass.gone| == |old(pass.gone)| + deleted
      {
        var removed := JudgeEntry(pass, table, ageCutoff, unreadCutoff, cursor, p, i);
        if removed {
          deleted := deleted + 1;
        }
      }
    }

    /** The outer loop: page through the store until the cursor is empty. */
    method JudgeAll(pass: Pass, table: ReadTable, ageCutoff: int, unreadCutoff: int) returns (deleted: nat, err: bool)
      requires pass.rule == Expendable(table, ageCutoff, unreadCutoff)
      requires pass.At("") && pass.Tidy() && pass.gone == {}
      modifies pass.backend, pass`gone, pass`skipped, pass`uncleared
      ensures pass.Tidy() && deleted == |pass.gone|
      ensures pass.Balanced()
      ensures !err ==>
        pass.gone == Marked(pass.initial, pass.rule) - pass.skipped && pass.skipped <= Marked(pass.initial, pass.rule)
      ensures err ==> exists t :: pass.backend.fails(t)
    {
      var cursor := "";
      deleted, err := 0, false;
      while true
        invariant pass.At(cursor) && pass.Tidy() && deleted == |pass.gone|
        decreases Remaining(cursor)
      {
        var page := pass.List(cursor, PAGE_LIMIT);
        if page.None? {
          err := true;
          break;
        }
        var n := JudgePage(pass, table, ageCutoff, unreadCutoff, cursor, page.value);
        deleted := deleted + n;
        pass.Turn(cursor, page.value);
        if page.value.nextCursor == "" {
          break;
        }
        cursor := page.value.nextCursor;
      }
    }

    /** The part of `Sweep` after the statistics are loaded. */
    method SweepWith(table: ReadTable, ageCutoff: int, unreadCutoff: int, ghost unneeded: set<string>)
      returns (deleted: nat, err: bool, notDeleted: set<string>, notCleared: set<string>, ghost gone: set<string>)
      requires backend.Valid() && table == backend.stats
      requires RecentUploads(backend.env, ageCutoff) && RecentUploads(backend.env, unreadCutoff)
      requires unneeded == UnneededIn(backend.visible, table, ageCutoff, unreadCutoff)
      modifies backend
      ensures backend.Valid()
      ensures Accounted(old(backend.visible), gone, backend.uploaded, backend.visible)
      ensures gone <= unneeded && deleted == |gone|
      ensures !err ==> gone == unneeded - notDeleted && notDeleted <= unneeded
      ensures backend.stats == Replayed(table, backend.log) && ClearedIn(backend.log) == gone - notCleared
      ensures ReadsIn(backend.log) == HitsBetween(backend.env, old(backend.clock), backend.clock)
      ensures NoReads(backend.env) ==> backend.stats == table - (gone - notCleared)
      ensures NoUploads(backend.env) ==> backend.uploaded == map[]
      ensures (forall t :: !backend.fails(t)) ==> !err && notDeleted == {} && notCleared == {}
    {
      backend.Watch();
      RecentUploadsAreFresh(backend.env, table, ageCutoff, unreadCutoff);
      ExpendableMeans(backend.visible, table, ageCutoff, unreadCutoff);
      var pass := new Pass(backend, Expendable(table, ageCutoff, unreadCutoff));
      deleted, err := JudgeAll(pass, table, ageCutoff, unreadCutoff);
      gone, notDeleted, notCleared := pass.gone, pass.skipped, pass.uncleared;
      pass.RowsLeft();
    }

    /** One pass over every stored entry, judged by the read statistics loaded at its start.
        Exactly the entries unneeded then are removed, except those whose deletion failed; every
        upload made meanwhile is there; the count is the number of removed entries. The read rows
        are the loaded ones after a log that holds every read recorded meanwhile, in order, and
        clears exactly the removed entries, except where clearing failed. When a listing fails, what
        was removed so far is still accounted for. It ends whatever others upload. */
    method Sweep(now: int)
      returns (deleted: nat, err: bool, notDeleted: set<string>, notCleared: set<string>, ghost gone: set<string>)
      requires backend.Valid()
      requires RecentUploads(backend.env, now - cfg.maxAge) && RecentUploads(backend.env, now - cfg.unreadAfter)
      modifies backend
      ensures backend.Valid()
      ensures var m := backend.env(old(backend.clock));
        var start, table := m.uploads + old(backend.visible), RecordReads(old(backend.stats), m.hits);
        var unneeded := UnneededIn(start, table, now - cfg.maxAge, now - cfg.unreadAfter);
        && Accounted(start, gone, backend.uploaded, backend.visible)
        && gone <= unneeded && deleted == |gone|
        && (!err ==> gone == unneeded - notDeleted && notDeleted <= unneeded)
        && backend.stats == Replayed(table, backend.log) && ClearedIn(backend.log) == gone - notCleared
        && ReadsIn(backend.log) == HitsBetween(backend.env, old(backend.clock) + 1, backend.clock)
        && (NoReads(backend.env) ==> backend.stats == table - (gone - notCleared))
      ensures NoUploads(backend.env) ==> backend.uploaded == map[]
      ensures (forall t :: !backend.fails(t)) ==> !err && notDeleted == {} && notCleared == {}
    {
      ghost var m := backend.env(backend.clock);
      ghost var start, table := m.uploads + backend.visible, RecordReads(backend.stats, m.hits);
      ghost var unneeded := UnneededIn(start, table, now - cfg.maxAge, now - cfg.unreadAfter);
      var loaded := backend.LoadStats();
      if loaded.None? {
        backend.Watch();
        return 0, true, {}, {}, {};
      }
      var ageCutoff, unreadCutoff := now - cfg.maxAge, now - cfg.unreadAfter;
      deleted, err, notDeleted, notCleared, gone := SweepWith(loaded.value, ageCutoff, unreadCutoff, unneeded);
    }
  }
}
