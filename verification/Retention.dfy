/** The janitor over time: how old a stored entry can get, and which entries are safe. A sweep is
    taken at one instant, without failures. */
module Retention {
  import opened CacheStore
  import opened PagedDeletion
  import opened Janitor

  datatype Event =
    | Upload(t: int, hash: string, modTime: int)
    | Read(t: int, hash: string)
    | Remove(t: int, hash: string)                   // by an admin
    | Sweep(t: int)
    | Move(t: int, entries: map<string, int>)        // a settings update swaps in a storage with these entries

  /** Modification times of the entries of the storage in use, and the read table. */
  datatype State = State(store: map<string, int>, table: ReadTable)

  function Expired(cfg: Config, s: State, now: int): set<string> {
    set h | h in s.store && ShouldDelete(s.store[h], StatsOf(s.table, h), now - cfg.maxAge, now - cfg.unreadAfter)
  }

  function Apply(cfg: Config, s: State, e: Event): State {
    match e
    case Upload(_, h, m) => if h in s.store then s else s.(store := s.store[h := m])
    case Read(t, h) => s.(table := RecordRead(s.table, h, t))
    case Remove(_, h) => if h in s.store then State(s.store - {h}, s.table - {h}) else s
    case Sweep(t) => State(s.store - Expired(cfg, s, t), s.table - Expired(cfg, s, t))
    case Move(_, entries) => s.(store := entries)
  }

  // ---------------------------------------------------------------- the sweep event

  function View(visible: Artifacts, stats: ReadTable): State {
    State(map h | h in visible :: visible[h].modTime, stats)
  }

  lemma MarkedIsExpired(cfg: Config, visible: Artifacts, stats: ReadTable, now: int)
    ensures Marked(visible, Expendable(stats, now - cfg.maxAge, now - cfg.unreadAfter))
      == Expired(cfg, View(visible, stats), now)
  {
  }

  lemma WithoutExpired(cfg: Config, visible: Artifacts, stats: ReadTable, now: int)
    ensures var gone := Expired(cfg, View(visible, stats), now);
      View(visible - gone, stats - gone) == Apply(cfg, View(visible, stats), Event.Sweep(now))
  {
    var gone := Expired(cfg, View(visible, stats), now);
    assert View(visible - gone, stats - gone).store == View(visible, stats).store - gone;
  }

  lemma SweptIsEvent(cfg: Config, visible: Artifacts, stats: ReadTable, gone: set<string>,
                     left: Artifacts, rows: ReadTable, now: int)
    requires gone == UnneededIn(visible, stats, now - cfg.maxAge, now - cfg.unreadAfter)
    requires Accounted(visible, gone, map[], left) && rows == stats - gone
    ensures View(left, rows) == Apply(cfg, View(visible, stats), Event.Sweep(now))
    ensures gone == Expired(cfg, View(visible, stats), now)
  {
    ExpendableMeans(visible, stats, now - cfg.maxAge, now - cfg.unreadAfter);
    MarkedIsExpired(cfg, visible, stats, now);
    WithoutExpired(cfg, visible, stats, now);
    assert left == visible - gone;
  }

  /** No other client moves, and nothing fails. */
  ghost predicate Quiet(store: Store)
    reads store
  {
    && store.Valid() && (forall t :: store.env(t).uploads == map[] && store.env(t).hits == [])
    && (forall t :: !store.fails(t))
  }

  /** `Janitor.Sweep`, when it has the store to itself, is the sweep event: it takes the entries and
      the read rows exactly where the event takes them. */
  method SweepAtOnce(janitor: Janitor, now: int) returns (deleted: nat)
    requires Quiet(janitor.backend)
    modifies janitor.backend
    ensures View(janitor.backend.visible, janitor.backend.stats)
      == Apply(janitor.cfg, View(old(janitor.backend.visible), old(janitor.backend.stats)), Event.Sweep(now))
    ensures deleted == |Expired(janitor.cfg, View(old(janitor.backend.visible), old(janitor.backend.stats)), now)|
  {
    ghost var visible, stats := janitor.backend.visible, janitor.backend.stats;
    assert map[] + visible == visible && RecordReads(stats, []) == stats;
    var err, notDeleted, notCleared;
    ghost var gone;
    deleted, err, notDeleted, notCleared, gone := janitor.Sweep(now);
    assert gone - {} == gone;
    SweptIsEvent(janitor.cfg, visible, stats, gone, janitor.backend.visible, janitor.backend.stats, now);
  }

  // ---------------------------------------------------------------- runs

  function Run(cfg: Config, events: seq<Event>, n: nat): State
    requires n <= |events|
  {
    if n == 0 then State(map[], map[]) else Apply(cfg, Run(cfg, events, n - 1), events[n - 1])
  }

  /** Events in the order of their times. A file's modification time is set while its bytes are
      written, so it may lie before the upload takes effect, but by less than the maximal age. */
  ghost predicate Timed(cfg: Config, events: seq<Event>) {
    && (forall i, j :: 0 <= i < j < |events| ==> events[i].t <= events[j].t)
    && (forall i :: 0 <= i < |events| && events[i].Upload? ==>
         events[i].modTime <= events[i].t <= events[i].modTime + cfg.maxAge)
  }

  // ---------------------------------------------------------------- nothing gets too old

  /** `i` is the last sweep among the first `n` events, and the storage was not moved after it. */
  predicate LastSweep(events: seq<Event>, n: nat, i: nat) {
    i < n <= |events| && events[i].Sweep? && forall k :: i < k < n ==> !events[k].Sweep? && !events[k].Move?
  }

  lemma {:induction false} SweptRecently(cfg: Config, events: seq<Event>, n: nat, i: nat)
    requires Timed(cfg, events) && LastSweep(events, n, i)
    ensures forall h :: h in Run(cfg, events, n).store ==> Run(cfg, events, n).store[h] >= events[i].t - cfg.maxAge
  {
    if n > i + 1 {
      SweptRecently(cfg, events, n - 1, i);
      assert events[i].t <= events[n - 1].t;
    }
  }

  /** Until time `end`, each sweep is followed by another within the interval. */
  ghost predicate SweepsRegularly(events: seq<Event>, interval: int, end: int) {
    forall i :: 0 <= i < |events| && events[i].Sweep? ==>
      end <= events[i].t + interval
      || exists j :: i < j < |events| && events[j].Sweep? && events[j].t <= events[i].t + interval
  }

  /** Once the storage in use has been swept, at every moment until `end`, none of its entries is
      older than the maximal age plus the sweep interval. */
  lemma RetentionBound(cfg: Config, events: seq<Event>, end: int, n: nat, now: int, i: nat, hash: string)
    requires Timed(cfg, events) && SweepsRegularly(events, cfg.interval, end)
    requires LastSweep(events, n, i)
    requires now <= if n < |events| then events[n].t else end
    requires hash in Run(cfg, events, n).store
    requires now <= end
    ensures now - Run(cfg, events, n).store[hash] <= cfg.maxAge + cfg.interval
  {
    SweptRecently(cfg, events, n, i);
    if end > events[i].t + cfg.interval {
      var j :| i < j < |events| && events[j].Sweep? && events[j].t <= events[i].t + cfg.interval;
      assert n <= j;
      assert n == j || events[n].t <= events[j].t;
    }
  }

  /** `m` is the last move of the storage among the first `n` events. */
  predicate LastMove(events: seq<Event>, n: nat, m: nat) {
    m < n <= |events| && events[m].Move? && forall k :: m < k < n ==> !events[k].Move?
  }

  /** The same events, when the move at `m` brings these entries. */
  function Bringing(events: seq<Event>, m: nat, entries: map<string, int>): seq<Event>
    requires m < |events|
  {
    events[m := Move(events[m].t, entries)]
  }

  ghost predicate BoundedAt(cfg: Config, events: seq<Event>, n: nat, now: int)
    requires n <= |events|
  {
    var store := Run(cfg, events, n).store;
    forall h :: h in store ==> now - store[h] <= cfg.maxAge + cfg.interval
  }

  lemma {:induction false} LaterSweep(events: seq<Event>, n: nat, i: nat) returns (j: nat)
    requires i < n <= |events| && events[i].Sweep? && forall k :: i < k < n ==> !events[k].Move?
    ensures i <= j && LastSweep(events, n, j)
  {
    if events[n - 1].Sweep? {
      j := n - 1;
    } else {
      j := LaterSweep(events, n - 1, i);
    }
  }

  /** Some hash that no event removes. */
  lemma {:induction false} NeverRemoved(events: seq<Event>) returns (hash: string)
    ensures hash != "" && forall k :: 0 <= k < |events| && events[k].Remove? ==> |events[k].hash| < |hash|
  {
    hash := "a";
    if events != [] {
      var n := |events| - 1;
      hash := NeverRemoved(events[..n]);
      if events[n].Remove? { hash := hash + events[n].hash; }
    }
  }

  /** An entry that came with the storage stays as it is until it is swept, removed, or the storage is
      moved again. */
  lemma {:induction false} MovedEntryStays(cfg: Config, events: seq<Event>, m: nat, n: nat, hash: string)
    requires m < n <= |events| && events[m].Move? && hash in events[m].entries
    requires forall k :: m < k < n ==> !events[k].Sweep? && !events[k].Move? && events[k] != Remove(events[k].t, hash)
    ensures hash in Run(cfg, events, n).store && Run(cfg, events, n).store[hash] == events[m].entries[hash]
  {
    if n > m + 1 {
      MovedEntryStays(cfg, events, m, n - 1, hash);
    }
  }

  lemma UnsweptIsUnbounded(cfg: Config, events: seq<Event>, m: nat, n: nat, now: int)
    returns (entries: map<string, int>)
    requires LastMove(events, n, m) && forall k :: m < k < n ==> !events[k].Sweep?
    ensures !BoundedAt(cfg, Bringing(events, m, entries), n, now)
  {
    var hash := NeverRemoved(events);
    entries := map[hash := now - cfg.maxAge - cfg.interval - 1];
    MovedEntryStays(cfg, Bringing(events, m, entries), m, n, hash);
  }

  lemma SweptIsBounded(cfg: Config, events: seq<Event>, end: int, m: nat, n: nat, now: int, i: nat,
                       entries: map<string, int>)
    requires Timed(cfg, events) && SweepsRegularly(events, cfg.interval, end) && LastMove(events, n, m)
    requires now <= (if n < |events| then events[n].t else end) && now <= end
    requires m < i < n && events[i].Sweep?
    ensures BoundedAt(cfg, Bringing(events, m, entries), n, now)
  {
    var moved := Bringing(events, m, entries);
    var j := LaterSweep(moved, n, i);
    assert SweepsRegularly(moved, cfg.interval, end) by {
      forall k | 0 <= k < |moved| && moved[k].Sweep? && end > moved[k].t + cfg.interval
        ensures exists l :: k < l < |moved| && moved[l].Sweep? && moved[l].t <= moved[k].t + cfg.interval
      {
        var l :| k < l < |events| && events[l].Sweep? && events[l].t <= events[k].t + cfg.interval;
        assert moved[l] == events[l];
      }
    }
    forall h | h in Run(cfg, moved, n).store ensures now - Run(cfg, moved, n).store[h] <= cfg.maxAge + cfg.interval {
      RetentionBound(cfg, moved, end, n, now, j, h);
    }
  }

  /** Whatever a storage contains when it is moved in, its entries keep the bound if and only if it has
      been swept since. */
  lemma BoundIffSwept(cfg: Config, events: seq<Event>, end: int, m: nat, n: nat, now: int)
    requires Timed(cfg, events) && SweepsRegularly(events, cfg.interval, end) && LastMove(events, n, m)
    requires now <= (if n < |events| then events[n].t else end) && now <= end
    ensures (forall entries :: BoundedAt(cfg, Bringing(events, m, entries), n, now))
      <==> exists i :: m < i < n && events[i].Sweep?
  {
    if i :| m < i < n && events[i].Sweep? {
      forall entries ensures BoundedAt(cfg, Bringing(events, m, entries), n, now) {
        SweptIsBounded(cfg, events, end, m, n, now, i, entries);
      }
    } else {
      var entries := UnsweptIsUnbounded(cfg, events, m, n, now);
    }
  }

  // ---------------------------------------------------------------- what is not in use goes

  /** Event `j` takes the entry out of the storage in use. */
  predicate Drops(cfg: Config, events: seq<Event>, j: nat, hash: string)
    requires j < |events|
  {
    !events[j].Move? && hash in Run(cfg, events, j).store && hash !in Run(cfg, events, j + 1).store
  }

  /** A removed entry is gone until it is uploaded again, or the storage is moved. */
  lemma {:induction false} RemovedIsGone(cfg: Config, events: seq<Event>, i: nat, n: nat, hash: string)
    requires i < n <= |events| && events[i] == Remove(events[i].t, hash)
    requires forall k :: i < k < n ==> !events[k].Move? && !(events[k].Upload? && events[k].hash == hash)
    ensures hash !in Run(cfg, events, n).store
  {
    if n > i + 1 {
      RemovedIsGone(cfg, events, i, n - 1, hash);
    }
  }

  /** A recorded read is a read that happened, since the last time the entry was dropped. */
  lemma {:induction false} RecordedReadHappened(cfg: Config, events: seq<Event>, n: nat, hash: string)
    requires n <= |events|
    requires hash in Run(cfg, events, n).table && Run(cfg, events, n).table[hash].lastReadAt.Some?
    ensures exists k :: 0 <= k < n && events[k] == Read(Run(cfg, events, n).table[hash].lastReadAt.value, hash)
                        && forall j :: k < j < n ==> !Drops(cfg, events, j, hash)
  {
    var row := Run(cfg, events, n).table[hash];
    if n > 0 {
      if events[n - 1] == Read(row.lastReadAt.value, hash) {
      } else {
        RecordedReadHappened(cfg, events, n - 1, hash);
        assert !Drops(cfg, events, n - 1, hash);
      }
    }
  }

  /** Which entries are left after a sweep: those within the maximal age that are also within the unread
      period, or have a recorded read within it. */
  lemma SweepKeepsIff(cfg: Config, events: seq<Event>, n: nat, hash: string)
    requires n < |events| && events[n].Sweep? && hash in Run(cfg, events, n).store
    ensures var s, now := Run(cfg, events, n), events[n].t;
      hash in Run(cfg, events, n + 1).store <==>
        && now - s.store[hash] <= cfg.maxAge
        && (now - s.store[hash] <= cfg.unreadAfter
            || (hash in s.table && s.table[hash].lastReadAt.Some?
                && now - s.table[hash].lastReadAt.value <= cfg.unreadAfter))
  {
  }

  /** So whatever survives a sweep is in use: it is within the maximal age, and within the unread period
      it was modified, or read since an entry of that hash was last dropped. */
  lemma SurvivorsAreInUse(cfg: Config, events: seq<Event>, n: nat, hash: string)
    requires n < |events| && events[n].Sweep? && hash in Run(cfg, events, n + 1).store
    ensures var modTime, now := Run(cfg, events, n + 1).store[hash], events[n].t;
      && now - modTime <= cfg.maxAge
      && (now - modTime <= cfg.unreadAfter
          || exists k :: 0 <= k < n && events[k] == Read(events[k].t, hash) && now - events[k].t <= cfg.unreadAfter
                         && forall j :: k < j < n ==> !Drops(cfg, events, j, hash))
  {
    SweepKeepsIff(cfg, events, n, hash);
    var s := Run(cfg, events, n);
    if hash in s.table && s.table[hash].lastReadAt.Some? {
      RecordedReadHappened(cfg, events, n, hash);
    }
  }

  // ---------------------------------------------------------------- what is in use stays

  /** When the entry that event `u` uploaded was last known to be in use, before event `k`. */
  function LastTouch(events: seq<Event>, u: nat, k: nat): int
    requires u < k <= |events| && events[u].Upload?
  {
    if k == u + 1 then events[u].modTime
    else if events[k - 1].Read? && events[k - 1].hash == events[u].hash then
      if events[k - 1].t > LastTouch(events, u, k - 1) then events[k - 1].t else LastTouch(events, u, k - 1)
    else LastTouch(events, u, k - 1)
  }

  /** The entry is stored, and the read table is at least as late as its last use. */
  predicate InUse(s: State, hash: string, modTime: int, touch: int) {
    && hash in s.store && s.store[hash] == modTime
    && (touch == modTime
        || (hash in s.table && s.table[hash].lastReadAt.Some? && s.table[hash].lastReadAt.value >= touch))
  }

  lemma TouchStep(cfg: Config, s: State, e: Event, hash: string, modTime: int, touch: int)
    requires InUse(s, hash, modTime, touch) && touch <= e.t && !e.Move? && e != Remove(e.t, hash)
    requires e.Sweep? ==> e.t - modTime <= cfg.maxAge && e.t - touch <= cfg.unreadAfter
    ensures InUse(Apply(cfg, s, e), hash, modTime, if e.Read? && e.hash == hash && e.t > touch then e.t else touch)
  {
  }

  /** An upload that takes effect stays in use under the conditions below. */
  lemma {:induction false} TouchIsRecorded(cfg: Config, events: seq<Event>, u: nat, n: nat)
    requires Timed(cfg, events) && u < n <= |events| && events[u].Upload?
    requires events[u].hash !in Run(cfg, events, u).store
    requires forall k :: u < k < n ==> events[k] != Remove(events[k].t, events[u].hash) && !events[k].Move?
    requires forall k :: u < k < n && events[k].Sweep? ==>
      events[k].t - events[u].modTime <= cfg.maxAge && events[k].t - LastTouch(events, u, k) <= cfg.unreadAfter
    ensures LastTouch(events, u, n) <= events[n - 1].t
    ensures InUse(Run(cfg, events, n), events[u].hash, events[u].modTime, LastTouch(events, u, n))
  {
    if n > u + 1 {
      TouchIsRecorded(cfg, events, u, n - 1);
      assert events[n - 2].t <= events[n - 1].t;
      TouchStep(cfg, Run(cfg, events, n - 1), events[n - 1],
                events[u].hash, events[u].modTime, LastTouch(events, u, n - 1));
    }
  }

  /** While the storage is not moved, an entry stays through every sweep as long as it is not past
      the maximal age and its recorded reads, counting from its modification time, are never more
      than the unread period apart. */
  lemma InUseSurvives(cfg: Config, events: seq<Event>, u: nat, n: nat)
    requires Timed(cfg, events) && u < n <= |events| && events[u].Upload?
    requires events[u].hash !in Run(cfg, events, u).store
    requires forall k :: u < k < n ==> events[k] != Remove(events[k].t, events[u].hash) && !events[k].Move?
    requires forall k :: u < k < n && events[k].Sweep? ==>
      events[k].t - events[u].modTime <= cfg.maxAge && events[k].t - LastTouch(events, u, k) <= cfg.unreadAfter
    ensures events[u].hash in Run(cfg, events, n).store
    ensures Run(cfg, events, n).store[events[u].hash] == events[u].modTime
  {
    TouchIsRecorded(cfg, events, u, n);
  }
}
