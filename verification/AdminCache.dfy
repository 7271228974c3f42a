/** The admin API over the stored artifacts: prune by age, bulk delete, and the sorted listing. */
module AdminCache {
  import opened Names
  import opened Listing
  import opened CacheStore
  import opened PagedDeletion
  import Durations

  const PAGE_LIMIT := 200
  const MAX_BULK_DELETE := 1000

  datatype Reply = Count(deleted: nat) | BadRequest | InternalError

  // ---------------------------------------------------------------- prune

  /** The entries dated before a moment. */
  ghost function Before(store: Artifacts, cutoff: int): set<string> {
    set h | h in store && store[h].modTime < cutoff
  }

  lemma OlderIsBefore(store: Artifacts, cutoff: int)
    ensures Marked(store, OlderThan(cutoff)) == Before(store, cutoff)
  {
  }

  /** `part` holds a marked hash only together with all marked hashes listed before it. */
  ghost predicate ListingPrefix(part: set<string>, marked: set<string>) {
    part <= marked && forall g, h :: g in part && h in marked && Below(h, g) ==> h in part
  }

  lemma HandledIsPrefix(marked: set<string>, gone: set<string>, skipped: set<string>, frontier: string)
    requires gone + skipped <= marked && forall h :: h in marked ==> (h in gone + skipped <==> !Below(frontier, h))
    requires skipped == {} || skipped == {frontier}
    ensures ListingPrefix(gone, marked)
  {
    forall g, h | g in gone && h in marked && Below(h, g) ensures h in gone {
      if Below(frontier, h) { BelowTransitive(frontier, h, g); }
      if h in skipped { BelowIrreflexive(h); }
    }
  }

  /** Store and read rows after `gone` was removed, of which `notCleared` kept their rows. */
  ghost predicate Trimmed(store: Artifacts, rows: ReadTable, gone: set<string>, notCleared: set<string>,
                          visible: Artifacts, stats: ReadTable)
  {
    visible == store - gone && gone <= store.Keys && stats == rows - (gone - notCleared) && notCleared <= gone
  }

  lemma TrimOne(store: Artifacts, rows: ReadTable, gone: set<string>, notCleared: set<string>,
                visible: Artifacts, stats: ReadTable, h: string, cleared: bool)
    requires Trimmed(store, rows, gone, notCleared, visible, stats) && h in visible
    ensures h !in gone
    ensures Trimmed(store, rows, gone + {h}, if cleared then notCleared else notCleared + {h},
                    visible - {h}, if cleared then stats - {h} else stats)
  {
    if cleared {
      assert (gone + {h}) - notCleared == (gone - notCleared) + {h};
    } else {
      assert (gone + {h}) - (notCleared + {h}) == gone - notCleared;
    }
  }

  lemma TrimmedSize(store: Artifacts, gone: set<string>, visible: Artifacts)
    requires visible == store - gone && gone <= store.Keys
    ensures |gone| == |store| - |visible|
  {
    assert store.Keys == visible.Keys + gone;
  }

  /** Without uploads, what a pass removed is what the store lost. */
  lemma QuietDrop(initial: Artifacts, gone: set<string>, visible: Artifacts)
    requires Accounted(initial, gone, map[], visible) && gone <= initial.Keys
    ensures visible == initial - gone && |gone| == |initial| - |visible|
  {
    assert initial.Keys == visible.Keys + gone;
  }

  /** One day past the exact range the cutoff lies in the future, so a prune marks every entry. */
  lemma WrappedPruneMarksAll(visible: Artifacts, now: int)
    requires forall h :: h in visible ==> visible[h].modTime <= now
    ensures Marked(visible, OlderThan(now + Durations.PruneOffset(Durations.MAX_DAYS + 1))) == visible.Keys
  {
    Durations.PruneOffsetWraps();
  }

  class Admin {
    const backend: Store

    constructor (backend: Store)
      ensures this.backend == backend
    {
      this.backend := backend;
    }

    /** The body of prune's inner loop. */
    method PruneEntry(pass: Pass, cutoff: int, cursor: string, p: ListPage, i: nat) returns (removed: bool, err: bool)
      requires pass.rule == OlderThan(cutoff)
      requires i < |p.entries| && pass.On(cursor, p, i) && pass.Tidy() && pass.skipped == {}
      modifies pass.backend, pass`gone, pass`skipped, pass`uncleared
      ensures pass.On(cursor, p, i + 1) && pass.Tidy()
      ensures pass.skipped == if err then {p.entries[i].hash} else {}
      ensures |pass.gone| == |old(pass.gone)| + (if removed then 1 else 0)
      ensures err ==> !removed && exists t :: pass.backend.fails(t)
    {
      removed, err := false, false;
      if !(p.entries[i].modTime < cutoff) {
        pass.Keep(cursor, p, i);
        return;
      }
      removed := pass.Remove(cursor, p, i);
      err := !removed;
    }

    /** Prune's inner loop: it stops at the first deletion that fails. */
    method PrunePage(pass: Pass, cutoff: int, cursor: string, p: ListPage) returns (deleted: nat, err: bool)
      requires pass.rule == OlderThan(cutoff)
      requires pass.On(cursor, p, 0) && pass.Tidy() && pass.skipped == {}
      modifies pass.backend, pass`gone, pass`skipped, pass`uncleared
      ensures pass.Balanced() && pass.Tidy() && |pass.gone| == |old(pass.gone)| + deleted
      ensures ListingPrefix(pass.gone, Marked(pass.initial, pass.rule))
      ensures !err ==> pass.On(cursor, p, |p.entries|) && pass.skipped == {}
      ensures err ==> exists t :: pass.backend.fails(t)
    {
      deleted, err := 0, false;
      for i := 0 to |p.entries|
        invariant pass.On(cursor, p, i) && pass.Tidy() && pass.skipped == {}
        invariant |pass.gone| == |old(pass.gone)| + deleted
      {
        var removed, failed := PruneEntry(pass, cutoff, cursor, p, i);
        if failed {
          HandledIsPrefix(Marked(pass.initial, pass.rule), pass.gone, pass.skipped, Frontier(cursor, p, i + 1));
          return deleted, true;
        }
        if removed {
          deleted := deleted + 1;
        }
      }
      HandledIsPrefix(Marked(pass.initial, pass.rule), pass.gone, pass.skipped, Frontier(cursor, p, |p.entries|));
    }

    /** One turn of the outer loop. */
    method PruneNext(pass: Pass, cutoff: int, cursor: string) returns (deleted: nat, err: bool, next: string)
      requires pass.rule == OlderThan(cutoff)
      requires pass.At(cursor) && pass.Tidy() && pass.skipped == {}
      requires ListingPrefix(pass.gone, Marked(pass.initial, pass.rule))
      modifies pass.backend, pass`gone, pass`skipped, pass`uncleared
      ensures pass.Balanced() && pass.Tidy() && |pass.gone| == |old(pass.gone)| + deleted
      ensures ListingPrefix(pass.gone, Marked(pass.initial, pass.rule))
      ensures !err ==> pass.skipped == {}
      ensures !err && next == "" ==> pass.gone == Marked(pass.initial, pass.rule)
      ensures !err && next != "" ==> pass.At(next) && Remaining(next) < Remaining(cursor)
      ensures err ==> exists t :: pass.backend.fails(t)
    {
      next := "";
      var page := pass.List(cursor, PAGE_LIMIT);
      if page.None? {
        return 0, true, "";
      }
      deleted, err := PrunePage(pass, cutoff, cursor, page.value);
      if !err {
        pass.Turn(cursor, page.value);
        next := page.value.nextCursor;
      }
    }

    method PruneAll(pass: Pass, cutoff: int) returns (deleted: nat, err: bool)
      requires pass.rule == OlderThan(cutoff)
      requires pass.At("") && pass.Tidy() && pass.gone == {} && pass.skipped == {}
      modifies pass.backend, pass`gone, pass`skipped, pass`uncleared
      ensures pass.Balanced() && pass.Tidy() && deleted == |pass.gone|
      ensures ListingPrefix(pass.gone, Marked(pass.initial, pass.rule))
      ensures !err ==> pass.gone == Marked(pass.initial, pass.rule)
      ensures err ==> exists t :: pass.backend.fails(t)
    {
      var cursor := "";
      deleted := 0;
      while true
        invariant pass.At(cursor) && pass.Tidy() && deleted == |pass.gone| && pass.skipped == {}
        invariant ListingPrefix(pass.gone, Marked(pass.initial, pass.rule))
        decreases Remaining(cursor)
      {
        var n, next;
        n, err, next := PruneNext(pass, cutoff, cursor);
        deleted := deleted + n;
        if err || next == "" {
          return;
        }
        cursor := next;
      }
    }

    /** `pruneOlderThan`, with other clients uploading meanwhile. Without an error exactly the
        entries older than the cutoff are gone; when a listing or a deletion fails, the removed
        entries are those marked up to that point of the listing order. The count is the number
        of removed entries. The read rows are the ones at the start after a log that holds every
        read recorded meanwhile and clears exactly the removed entries, unless clearing failed. */
    method PruneOlderThan(cutoff: int)
      returns (deleted: nat, err: bool, notCleared: set<string>, ghost gone: set<string>)
      requires backend.Valid() && Fresh(backend.env, OlderThan(cutoff))
      modifies backend
      ensures backend.Valid()
      ensures var marked := Marked(old(backend.visible), OlderThan(cutoff));
        && Accounted(old(backend.visible), gone, backend.uploaded, backend.visible)
        && ListingPrefix(gone, marked) && (!err ==> gone == marked) && deleted == |gone|
      ensures !err ==> gone == Before(old(backend.visible), cutoff)
      ensures backend.stats == Replayed(old(backend.stats), backend.log) && ClearedIn(backend.log) == gone - notCleared
      ensures ReadsIn(backend.log) == HitsBetween(backend.env, old(backend.clock), backend.clock)
      ensures NoReads(backend.env) ==> backend.stats == old(backend.stats) - (gone - notCleared)
      ensures (forall t :: !backend.fails(t)) ==> !err && notCleared == {}
      ensures NoUploads(backend.env) ==>
        backend.visible == old(backend.visible) - gone && deleted == |old(backend.visible)| - |backend.visible|
    {
      backend.Watch();
      var pass := new Pass(backend, OlderThan(cutoff));
      deleted, err := PruneAll(pass, cutoff);
      gone, notCleared := pass.gone, pass.uncleared;
      pass.RowsLeft();
      OlderIsBefore(old(backend.visible), cutoff);
      if NoUploads(backend.env) { QuietDrop(old(backend.visible), gone, backend.visible); }
    }

    /** `handlePrune`: for every positive day count, success removes exactly the entries dated
        before the computed cutoff, and a failure a listing prefix of them; within the exact range
        of the duration arithmetic these are the entries older than that many days. */
    method HandlePrune(days: int, now: int) returns (r: Reply, ghost gone: set<string>, ghost notCleared: set<string>)
      requires backend.Valid() && Durations.Int64(days)
      requires days > 0 ==> Fresh(backend.env, OlderThan(now + Durations.PruneOffset(days)))
      modifies backend
      ensures r.BadRequest? <==> days <= 0
      ensures days <= 0 ==> gone == {} && backend.visible == old(backend.visible) && backend.stats == old(backend.stats)
      ensures days > 0 ==>
        var marked := Marked(old(backend.visible), OlderThan(now + Durations.PruneOffset(days)));
        && Accounted(old(backend.visible), gone, backend.uploaded, backend.visible) && ListingPrefix(gone, marked)
        && (r.Count? ==> gone == marked && r.deleted == |gone|)
        && backend.stats == Replayed(old(backend.stats), backend.log) && ClearedIn(backend.log) == gone - notCleared
        && ReadsIn(backend.log) == HitsBetween(backend.env, old(backend.clock), backend.clock)
      ensures r.Count? && days <= Durations.MAX_DAYS ==>
        gone == set h | h in old(backend.visible) && old(backend.visible)[h].modTime < now - days * Durations.DAY
      ensures (forall t :: !backend.fails(t)) ==> !r.InternalError? && notCleared == {}
    {
      gone, notCleared := {}, {};
      if days <= 0 {
        return BadRequest, {}, {};
      }
      var cutoff := now + Durations.PruneOffset(days);
      var deleted, err, kept;
      deleted, err, kept, gone := PruneOlderThan(cutoff);
      notCleared := kept;
      if err {
        return InternalError, gone, notCleared;
      }
      r := Count(deleted);
      if days <= Durations.MAX_DAYS {
        Durations.PruneOffsetExact(days);
      }
    }

    // -------------------------------------------------------------- bulk delete

    /** No other client interferes. */
    ghost predicate Alone()
      reads this, backend
    {
      backend.Valid() && forall t :: backend.env(t).uploads == map[] && backend.env(t).hits == []
    }

    method DeleteAlone(h: string) returns (deleted: bool)
      requires Alone()
      modifies backend
      ensures Alone() && backend.stats == old(backend.stats)
      ensures deleted ==> h in old(backend.visible)
      ensures backend.visible == if deleted then old(backend.visible) - {h} else old(backend.visible)
      ensures (forall t :: !backend.fails(t)) ==> (deleted <==> h in old(backend.visible))
    {
      var outcome := backend.Delete(h);
      deleted := outcome.Deleted?;
    }

    method ClearAlone(h: string) returns (cleared: bool)
      requires Alone()
      modifies backend
      ensures Alone() && backend.visible == old(backend.visible)
      ensures backend.stats == if cleared then old(backend.stats) - {h} else old(backend.stats)
      ensures (forall t :: !backend.fails(t)) ==> cleared
    {
      cleared := backend.ClearStats(h);
    }

    /** One hash of a bulk request: invalid and absent hashes are passed over. */
    method DeleteOne(h: string) returns (deleted: bool, cleared: bool)
      requires Alone()
      modifies backend
      ensures Alone()
      ensures deleted ==> h in old(backend.visible)
      ensures backend.visible == if deleted then old(backend.visible) - {h} else old(backend.visible)
      ensures backend.stats == if deleted && cleared then old(backend.stats) - {h} else old(backend.stats)
      ensures (forall t :: !backend.fails(t)) ==> cleared && (deleted <==> h in old(backend.visible))
    {
      deleted, cleared := false, true;
      if !ValidHash(h) {
        return;
      }
      deleted := DeleteAlone(h);
      if deleted {
        cleared := ClearAlone(h);
      }
    }

    /** One hash of a bulk request, with the account of the hashes before it. */
    method BulkOne(h: string, ghost store: Artifacts, ghost rows: ReadTable,
                   ghost gone: set<string>, ghost notCleared: set<string>)
      returns (removed: bool, ghost gone': set<string>, ghost notCleared': set<string>)
      requires Alone() && Trimmed(store, rows, gone, notCleared, backend.visible, backend.stats)
      modifies backend
      ensures Alone() && Trimmed(store, rows, gone', notCleared', backend.visible, backend.stats)
      ensures gone' == if removed then gone + {h} else gone
      ensures |gone'| == |gone| + if removed then 1 else 0
      ensures (forall t :: !backend.fails(t)) ==> notCleared' == notCleared && (h in store ==> h in gone')
    {
      ghost var visible, stats := backend.visible, backend.stats;
      gone', notCleared' := gone, notCleared;
      var cleared;
      removed, cleared := DeleteOne(h);
      if removed {
        TrimOne(store, rows, gone, notCleared, visible, stats, h, cleared);
        gone' := gone + {h};
        notCleared' := if cleared then notCleared else notCleared + {h};
      }
    }

    /** The loop over the hashes of a bulk request. */
    method DeleteEach(hashes: seq<string>)
      returns (deleted: nat, ghost gone: set<string>, ghost notCleared: set<string>)
      requires Alone()
      modifies backend
      ensures Alone() && deleted == |gone| && forall h :: h in gone ==> h in hashes
      ensures Trimmed(old(backend.visible), old(backend.stats), gone, notCleared, backend.visible, backend.stats)
      ensures (forall t :: !backend.fails(t)) ==>
        notCleared == {} && forall h :: h in hashes && h in old(backend.visible) ==> h in gone
    {
      gone, notCleared := {}, {};
      deleted := 0;
      ghost var store, rows := backend.visible, backend.stats;
      for i := 0 to |hashes|
        invariant Alone() && Trimmed(store, rows, gone, notCleared, backend.visible, backend.stats)
        invariant deleted == |gone| && forall h :: h in gone ==> h in hashes
        invariant (forall t :: !backend.fails(t)) ==>
          notCleared == {} && forall k :: 0 <= k < i && hashes[k] in store ==> hashes[k] in gone
      {
        var removed;
        removed, gone, notCleared := BulkOne(hashes[i], store, rows, gone, notCleared);
        if removed {
          deleted := deleted + 1;
        }
      }
    }

    /** `handleBulkDelete`, run alone: hashes that are invalid, absent or repeated remove nothing
        more and are not counted; the count is what the store lost. */
    method HandleBulkDelete(hashes: seq<string>)
      returns (r: Reply, ghost gone: set<string>, ghost notCleared: set<string>)
      requires Alone()
      modifies backend
      ensures Alone()
      ensures r.BadRequest? <==> |hashes| > 1000
      ensures !r.InternalError?
      ensures |hashes| > MAX_BULK_DELETE ==> gone == {}
      ensures backend.visible == old(backend.visible) - gone && gone <= old(backend.visible).Keys
      ensures forall h :: h in gone ==> h in hashes
      ensures backend.stats == old(backend.stats) - (gone - notCleared) && notCleared <= gone
      ensures r.Count? ==> r.deleted == |gone| && r.deleted == |old(backend.visible)| - |backend.visible|
      ensures r.Count? && (forall t :: !backend.fails(t)) ==>
        notCleared == {} && gone == set h | h in hashes && h in old(backend.visible)
    {
      gone, notCleared := {}, {};
      if |hashes| > MAX_BULK_DELETE {
        return BadRequest, {}, {};
      }
      ghost var store := backend.visible;
      var deleted;
      deleted, gone, notCleared := DeleteEach(hashes);
      TrimmedSize(store, gone, backend.visible);
      r := Count(deleted);
    }
  }
}
