/** Deleting from the store while paging through it: what the loops of the janitor's sweep and
    of the admin prune keep, whatever other clients upload meanwhile. */
module PagedDeletion {
  import opened Wrappers
  import opened Names
  import opened Listing
  import opened CacheStore

  /** The janitor's `shouldDelete`. */
  predicate ShouldDelete(modTime: int, stats: ReadStats, ageCutoff: int, unreadCutoff: int) {
    modTime < ageCutoff
    || (modTime < unreadCutoff && (stats.lastReadAt.None? || stats.lastReadAt.value < unreadCutoff))
  }

  /** What a loop deletes: the janitor judges age and reads as they were at its start, the
      admin prune only age. */
  datatype Rule =
    | Expendable(table: ReadTable, ageCutoff: int, unreadCutoff: int)
    | OlderThan(cutoff: int)
  {
    predicate Marks(hash: string, modTime: int) {
      match this
      case Expendable(table, ageCutoff, unreadCutoff) =>
        ShouldDelete(modTime, StatsOf(table, hash), ageCutoff, unreadCutoff)
      case OlderThan(cutoff) => modTime < cutoff
    }
  }

  /** The hashes of a store that the rule marks for deletion. */
  ghost function Marked(store: Artifacts, rule: Rule): set<string> {
    set h | h in store && rule.Marks(h, store[h].modTime)
  }

  /** No upload of the other clients is marked. */
  ghost predicate Fresh(env: nat -> Moves, rule: Rule) {
    forall t, h :: h in env(t).uploads ==> !rule.Marks(h, env(t).uploads[h].modTime)
  }

  /** Up to `frontier` every marked hash is `gone` or `skipped`; beyond it, nothing is yet. */
  ghost predicate Working(initial: Artifacts, rule: Rule, gone: set<string>, skipped: set<string>,
                          uploaded: Artifacts, visible: Artifacts, frontier: string)
  {
    && Accounted(initial, gone, uploaded, visible)
    && (forall h :: h in uploaded ==> !rule.Marks(h, uploaded[h].modTime))
    && gone !! skipped && gone + skipped <= Marked(initial, rule)
    && (forall h :: h in Marked(initial, rule) ==> (h in gone + skipped <==> !Below(frontier, h)))
  }

  /** Entries of the page from the `i`-th on are as listed, and every marked hash not yet
      handled is still to come. */
  ghost predicate PageAhead(initial: Artifacts, rule: Rule, handled: set<string>,
                            visible: Artifacts, p: ListPage, i: nat) {
    && (forall k :: i <= k < |p.entries| ==> Current(visible, p.entries[k]))
    && (forall h :: h in Marked(initial, rule) - handled ==> OnPage(p, h))
  }

  lemma WorkMoves(initial: Artifacts, rule: Rule, gone: set<string>, skipped: set<string>,
                  uploaded: Artifacts, visible: Artifacts, frontier: string, m: Moves)
    requires Working(initial, rule, gone, skipped, uploaded, visible, frontier)
    requires forall h :: h in m.uploads ==> !rule.Marks(h, m.uploads[h].modTime)
    ensures Working(initial, rule, gone, skipped, Uploaded(uploaded, visible, m), m.uploads + visible, frontier)
  {
    AccountMoves(initial, gone, uploaded, visible, m);
  }

  lemma AheadMoves(initial: Artifacts, rule: Rule, handled: set<string>,
                   visible: Artifacts, p: ListPage, i: nat, m: Moves)
    requires PageAhead(initial, rule, handled, visible, p, i)
    ensures PageAhead(initial, rule, handled, m.uploads + visible, p, i)
  {
  }

  lemma PageStarts(initial: Artifacts, rule: Rule, gone: set<string>, skipped: set<string>,
                   uploaded: Artifacts, visible: Artifacts, cursor: string, p: ListPage)
    requires Working(initial, rule, gone, skipped, uploaded, visible, cursor)
    requires IsPage(visible, cursor, p)
    ensures PageAhead(initial, rule, gone + skipped, visible, p, 0)
  {
    forall h | h in Marked(initial, rule) - (gone + skipped) ensures OnPage(p, h) {
      assert h in visible && Below(cursor, h);
    }
  }

  /** The last hash dealt with after `i` entries of the page that starts after `cursor`. */
  function Frontier(cursor: string, p: ListPage, i: nat): string
    requires i <= |p.entries|
  {
    if i == 0 then cursor else p.entries[i - 1].hash
  }

  /** Between the frontier and the next entry there is nothing left to handle. */
  lemma NothingBetween(initial: Artifacts, rule: Rule, handled: set<string>, visible: Artifacts,
                       cursor: string, p: ListPage, i: nat, h: string)
    requires AscendsFrom(cursor, p.entries) && i < |p.entries|
    requires BeforeNext(p)
    requires PageAhead(initial, rule, handled, visible, p, i)
    requires h in Marked(initial, rule) - handled && Below(Frontier(cursor, p, i), h) && h != p.entries[i].hash
    ensures Below(p.entries[i].hash, h)
  {
    assert OnPage(p, h);
    if k :| 0 <= k < |p.entries| && p.entries[k].hash == h {
      if k < i {
        BelowIrreflexive(h);
        if k < i - 1 { BelowAsymmetric(p.entries[k].hash, p.entries[i - 1].hash); }
      }
    } else {
      NotAfterThenBelow(p.entries[i].hash, p.nextCursor, h);
    }
  }

  /** The entry at hand is marked by what the page says of it exactly if it is an initial marked
      hash that has not been handled. */
  lemma EntryAtHand(initial: Artifacts, rule: Rule, gone: set<string>, skipped: set<string>,
                    uploaded: Artifacts, visible: Artifacts, cursor: string, p: ListPage, i: nat)
    requires i < |p.entries| && AscendsFrom(cursor, p.entries)
    requires Working(initial, rule, gone, skipped, uploaded, visible, Frontier(cursor, p, i))
    requires PageAhead(initial, rule, gone + skipped, visible, p, i)
    ensures var e := p.entries[i];
      && e.hash in visible
      && (rule.Marks(e.hash, e.modTime) <==> e.hash in Marked(initial, rule) && e.hash !in gone + skipped)
      && (rule.Marks(e.hash, e.modTime) ==> e.hash !in uploaded)
  {
    var e := p.entries[i];
    assert Current(visible, e);
  }

  /** The frontier moves past the entry at hand once it is deleted, skipped, or not marked. */
  lemma EntryHandled(initial: Artifacts, rule: Rule, gone: set<string>, skipped: set<string>,
                     uploaded: Artifacts, visible: Artifacts, cursor: string, p: ListPage, i: nat, deleted: bool)
    requires i < |p.entries| && AscendsFrom(cursor, p.entries)
    requires BeforeNext(p)
    requires Working(initial, rule, gone, skipped, uploaded, visible, Frontier(cursor, p, i))
    requires PageAhead(initial, rule, gone + skipped, visible, p, i)
    ensures var e := p.entries[i];
      var marked := rule.Marks(e.hash, e.modTime);
      var gone' := if marked && deleted then gone + {e.hash} else gone;
      var skipped' := if marked && !deleted then skipped + {e.hash} else skipped;
      var visible' := if marked && deleted then visible - {e.hash} else visible;
      && Working(initial, rule, gone', skipped', uploaded, visible', e.hash)
      && PageAhead(initial, rule, gone' + skipped', visible', p, i + 1)
  {
    var e := p.entries[i];
    EntryAtHand(initial, rule, gone, skipped, uploaded, visible, cursor, p, i);
    var f := Frontier(cursor, p, i);
    assert Below(f, e.hash);
    BelowIrreflexive(e.hash);
    var marked := rule.Marks(e.hash, e.modTime);
    if marked && deleted { AccountDelete(initial, gone, uploaded, visible, e.hash); }
    forall h | h in Marked(initial, rule) && h !in gone + skipped && h != e.hash ensures Below(e.hash, h) {
      NothingBetween(initial, rule, gone + skipped, visible, cursor, p, i, h);
    }
    forall h | h in gone + skipped ensures !Below(e.hash, h) {
      if Below(e.hash, h) { BelowTransitive(f, e.hash, h); }
    }
    forall k | i + 1 <= k < |p.entries| ensures p.entries[k].hash != e.hash {
      BelowAsymmetric(e.hash, p.entries[k].hash);
    }
  }

  /** The others move, then the entry at hand is deleted, or its deletion fails. */
  lemma DeleteStep(initial: Artifacts, rule: Rule, gone: set<string>, skipped: set<string>,
                   uploaded: Artifacts, visible: Artifacts, cursor: string, p: ListPage, i: nat,
                   m: Moves, deleted: bool)
    requires i < |p.entries| && AscendsFrom(cursor, p.entries) && BeforeNext(p)
    requires Working(initial, rule, gone, skipped, uploaded, visible, Frontier(cursor, p, i))
    requires PageAhead(initial, rule, gone + skipped, visible, p, i)
    requires forall h :: h in m.uploads ==> !rule.Marks(h, m.uploads[h].modTime)
    requires rule.Marks(p.entries[i].hash, p.entries[i].modTime)
    ensures var e, up, v := p.entries[i], Uploaded(uploaded, visible, m), m.uploads + visible;
      var gone' := if deleted then gone + {e.hash} else gone;
      var skipped' := if deleted then skipped else skipped + {e.hash};
      var v' := if deleted then v - {e.hash} else v;
      && e.hash in v && e.hash !in gone
      && Working(initial, rule, gone', skipped', up, v', e.hash)
      && PageAhead(initial, rule, gone' + skipped', v', p, i + 1)
  {
    WorkMoves(initial, rule, gone, skipped, uploaded, visible, Frontier(cursor, p, i), m);
    AheadMoves(initial, rule, gone + skipped, visible, p, i, m);
    EntryAtHand(initial, rule, gone, skipped, Uploaded(uploaded, visible, m), m.uploads + visible, cursor, p, i);
    EntryHandled(initial, rule, gone, skipped, Uploaded(uploaded, visible, m), m.uploads + visible,
                 cursor, p, i, deleted);
  }

  /** At the end of a page the frontier is the next cursor, or everything has been handled. */
  lemma PageEnds(initial: Artifacts, rule: Rule, gone: set<string>, skipped: set<string>,
                 uploaded: Artifacts, visible: Artifacts, cursor: string, p: ListPage)
    requires AscendsFrom(cursor, p.entries)
    requires BeforeNext(p)
    requires p.nextCursor != "" ==> Below(cursor, p.nextCursor)
    requires Working(initial, rule, gone, skipped, uploaded, visible, Frontier(cursor, p, |p.entries|))
    requires PageAhead(initial, rule, gone + skipped, visible, p, |p.entries|)
    ensures p.nextCursor == "" ==> gone + skipped == Marked(initial, rule)
    ensures p.nextCursor != "" ==> Working(initial, rule, gone, skipped, uploaded, visible, p.nextCursor)
  {
    var n := |p.entries|;
    var f := Frontier(cursor, p, n);
    forall h | h in Marked(initial, rule) && h !in gone + skipped ensures p.nextCursor != "" && Below(p.nextCursor, h) {
      assert h in Marked(initial, rule) - (gone + skipped);
      assert OnPage(p, h) && Below(f, h);
      if k :| 0 <= k < n && p.entries[k].hash == h {
        BelowIrreflexive(h);
        if k < n - 1 { BelowAsymmetric(p.entries[k].hash, p.entries[n - 1].hash); }
      }
    }
    if p.nextCursor != "" {
      forall h | h in gone + skipped ensures !Below(p.nextCursor, h) {
        if Below(p.nextCursor, h) {
          if n == 0 {
            BelowTransitive(cursor, p.nextCursor, h);
          } else {
            NotAfterThenBelow(f, p.nextCursor, h);
          }
        }
      }
    }
  }

  ghost predicate NoReads(env: nat -> Moves) {
    forall t :: env(t).hits == []
  }

  ghost predicate NoUploads(env: nat -> Moves) {
    forall t :: env(t).uploads == map[]
  }

  lemma {:induction false} NoHits(env: nat -> Moves, start: nat, end: nat)
    requires NoReads(env)
    ensures HitsBetween(env, start, end) == []
  {
    if end > start {
      NoHits(env, start, end - 1);
    }
  }

  /** When others record no reads, exactly the cleared rows are gone. */
  lemma QuietRows(base: ReadTable, log: seq<RowChange>, stats: ReadTable, env: nat -> Moves, begun: nat, clock: nat)
    requires LogFits(base, log, stats, env, begun, clock) && NoReads(env)
    ensures stats == base - ClearedIn(log)
  {
    NoHits(env, begun, clock);
    ReplayWithoutReads(base, log);
  }

  /** One pass over the store: its backend, and the account of what the pass has done. */
  class Pass {
    const backend: Store
    ghost const initial: Artifacts
    ghost const rows: ReadTable
    ghost const begun: nat
    ghost const rule: Rule
    ghost var gone: set<string>
    var skipped: set<string>      // deletions that failed
    var uncleared: set<string>    // deleted, but their read row has not been cleared

    /** Everything up to `frontier` is dealt with. */
    ghost predicate At(frontier: string)
      reads this, backend
    {
      && backend.Valid() && Fresh(backend.env, rule)
      && Working(initial, rule, gone, skipped, backend.uploaded, backend.visible, frontier)
      && uncleared <= gone
      && backend.base == rows && backend.begun == begun && ClearedIn(backend.log) == gone - uncleared
      && (NoUploads(backend.env) ==> backend.uploaded == map[])
      && ((forall t :: !backend.fails(t)) ==> skipped == {})
    }

    /** Without failures no removed entry has kept its read row. */
    ghost predicate Tidy()
      reads this
    {
      (forall t :: !backend.fails(t)) ==> uncleared == {}
    }

    /** The account of a pass at any moment, whatever has been dealt with. */
    ghost predicate Balanced()
      reads this, backend
    {
      && backend.Valid()
      && Accounted(initial, gone, backend.uploaded, backend.visible)
      && gone <= Marked(initial, rule)
      && backend.base == rows && backend.begun == begun && ClearedIn(backend.log) == gone - uncleared
      && (NoUploads(backend.env) ==> backend.uploaded == map[])
      && ((forall t :: !backend.fails(t)) ==> skipped == {})
    }

    /** In the middle of a page: its entries from the `i`-th on are still to be judged. */
    ghost predicate On(cursor: string, p: ListPage, i: nat)
      reads this, backend
    {
      && i <= |p.entries| && At(Frontier(cursor, p, i))
      && PageAhead(initial, rule, gone + skipped, backend.visible, p, i)
      && AscendsFrom(cursor, p.entries) && BeforeNext(p)
      && (p.nextCursor != "" ==> Below(cursor, p.nextCursor) && ValidHash(p.nextCursor))
    }

    constructor (backend: Store, ghost rule: Rule)
      requires backend.Valid() && backend.uploaded == map[] && backend.log == [] && Fresh(backend.env, rule)
      ensures this.backend == backend && this.rule == rule && begun == backend.begun
      ensures initial == backend.visible && rows == backend.stats && gone == {} && At("") && Tidy()
    {
      this.backend, this.rule, this.initial, this.rows := backend, rule, backend.visible, backend.stats;
      this.begun := backend.begun;
      this.gone, this.skipped, this.uncleared := {}, {}, {};
    }

    method List(cursor: string, limit: int) returns (page: Option<ListPage>)
      requires At(cursor)
      modifies backend
      ensures page.Some? ==> On(cursor, page.value, 0)
      ensures page.None? ==> At(cursor) && exists t :: backend.fails(t)
    {
      WorkMoves(initial, rule, gone, skipped, backend.uploaded, backend.visible, cursor, backend.env(backend.clock));
      page := backend.List(cursor, limit);
      if page.Some? {
        PageStarts(initial, rule, gone, skipped, backend.uploaded, backend.visible, cursor, page.value);
      }
    }

    /** The entry at hand is not marked: it stays. */
    method Keep(cursor: string, p: ListPage, i: nat)
      requires On(cursor, p, i) && i < |p.entries|
      requires !rule.Marks(p.entries[i].hash, p.entries[i].modTime)
      ensures On(cursor, p, i + 1)
    {
      EntryHandled(initial, rule, gone, skipped, backend.uploaded, backend.visible, cursor, p, i, true);
    }

    /** The entry at hand is marked: delete it. It cannot have been removed by anyone else. */
    method Delete(cursor: string, p: ListPage, i: nat) returns (r: Outcome)
      requires On(cursor, p, i) && i < |p.entries|
      requires rule.Marks(p.entries[i].hash, p.entries[i].modTime)
      modifies backend, this`gone, this`skipped, this`uncleared
      ensures On(cursor, p, i + 1) && (r.Deleted? || r.DeleteError?)
      ensures p.entries[i].hash !in old(gone)
      ensures gone == if r.Deleted? then old(gone) + {p.entries[i].hash} else old(gone)
      ensures skipped == if r.Deleted? then old(skipped) else old(skipped) + {p.entries[i].hash}
      ensures uncleared == if r.Deleted? then old(uncleared) + {p.entries[i].hash} else old(uncleared)
      ensures r.DeleteError? ==> exists t :: backend.fails(t)
    {
      var h := p.entries[i].hash;
      ghost var m := backend.env(backend.clock);
      DeleteStep(initial, rule, gone, skipped, backend.uploaded, backend.visible, cursor, p, i, m, true);
      DeleteStep(initial, rule, gone, skipped, backend.uploaded, backend.visible, cursor, p, i, m, false);
      r := backend.Delete(h);
      if r.Deleted? {
        gone, uncleared := gone + {h}, uncleared + {h};
        assert gone - uncleared == old(gone) - old(uncleared);
      } else {
        skipped := skipped + {h};
      }
    }

    /** After a deletion: clear the read row, best effort. */
    method Clear(cursor: string, p: ListPage, i: nat)
      requires On(cursor, p, i + 1) && p.entries[i].hash in uncleared
      modifies backend, this`uncleared
      ensures On(cursor, p, i + 1)
      ensures uncleared == old(uncleared) - {p.entries[i].hash}
        || (uncleared == old(uncleared) && exists t :: backend.fails(t))
    {
      ghost var m := backend.env(backend.clock);
      WorkMoves(initial, rule, gone, skipped, backend.uploaded, backend.visible, Frontier(cursor, p, i + 1), m);
      AheadMoves(initial, rule, gone + skipped, backend.visible, p, i + 1, m);
      var cleared := backend.ClearStats(p.entries[i].hash);
      if cleared {
        uncleared := uncleared - {p.entries[i].hash};
        assert gone - uncleared == (gone - old(uncleared)) + {p.entries[i].hash};
      }
    }

    /** The entry at hand is marked: delete it and, if that succeeds, clear its read row. */
    method DeleteAndClear(cursor: string, p: ListPage, i: nat) returns (ok: bool)
      requires On(cursor, p, i) && i < |p.entries| && Tidy()
      requires rule.Marks(p.entries[i].hash, p.entries[i].modTime)
      modifies backend, this`gone, this`skipped, this`uncleared
      ensures On(cursor, p, i + 1) && Tidy()
      ensures ok ==>
        gone == old(gone) + {p.entries[i].hash} && p.entries[i].hash !in old(gone) && skipped == old(skipped)
      ensures !ok ==> gone == old(gone) && skipped == old(skipped) + {p.entries[i].hash} && exists t :: backend.fails(t)
    {
      var r := Delete(cursor, p, i);
      ok := !r.DeleteError?;
      if ok {
        Clear(cursor, p, i);
      }
    }

    /** The same, counted. */
    method Remove(cursor: string, p: ListPage, i: nat) returns (ok: bool)
      requires On(cursor, p, i) && i < |p.entries| && Tidy()
      requires rule.Marks(p.entries[i].hash, p.entries[i].modTime)
      modifies backend, this`gone, this`skipped, this`uncleared
      ensures On(cursor, p, i + 1) && Tidy()
      ensures ok ==> |gone| == |old(gone)| + 1 && skipped == old(skipped)
      ensures !ok ==> gone == old(gone) && skipped == old(skipped) + {p.entries[i].hash} && exists t :: backend.fails(t)
    {
      ok := DeleteAndClear(cursor, p, i);
    }

    /** What the pass has made of the read rows, whatever others recorded meanwhile. */
    lemma RowsLeft()
      requires Balanced()
      ensures backend.stats == Replayed(rows, backend.log) && ClearedIn(backend.log) == gone - uncleared
      ensures ReadsIn(backend.log) == HitsBetween(backend.env, begun, backend.clock)
      ensures NoReads(backend.env) ==> backend.stats == rows - (gone - uncleared)
    {
      if NoReads(backend.env) {
        QuietRows(backend.base, backend.log, backend.stats, backend.env, backend.begun, backend.clock);
      }
    }

    /** The page is done. */
    lemma Turn(cursor: string, p: ListPage)
      requires On(cursor, p, |p.entries|)
      ensures p.nextCursor == "" ==> gone + skipped == Marked(initial, rule)
      ensures p.nextCursor != "" ==> At(p.nextCursor) && Remaining(p.nextCursor) < Remaining(cursor)
    {
      PageEnds(initial, rule, gone, skipped, backend.uploaded, backend.visible, cursor, p);
      if p.nextCursor != "" {
        RemainingDecreases(cursor, p.nextCursor);
      }
    }
  }
}
