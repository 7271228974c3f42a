/** `Local.List`: one page of the sorted directory after a cursor, and the walk that follows
    `NextCursor` while other clients upload and delete. */
module Listing {
  import opened Wrappers
  import opened Names

  const DEFAULT_LIST_LIMIT: int := 50

  datatype DirEntry = DirEntry(name: string, isDir: bool)
  datatype Info = Info(size: int, modTime: int)
  datatype Entry = Entry(hash: string, size: int, modTime: int)
  datatype ListPage = ListPage(entries: seq<Entry>, nextCursor: string)
  type Stats = map<string, Info>   // what `os.Stat` answers for each name of the page

  // ---------------------------------------------------------------- one page

  /** The names `List` keeps of a directory. */
  function Kept(dir: seq<DirEntry>): seq<string> {
    if dir == [] then []
    else Kept(dir[..|dir| - 1]) +
         (if dir[|dir| - 1].isDir || IsTemp(dir[|dir| - 1].name) then [] else [dir[|dir| - 1].name])
  }

  /** What the cursor means: the names that come after it. */
  function After(names: seq<string>, cursor: string): seq<string> {
    if names == [] then []
    else if Below(cursor, names[0]) then [names[0]] + After(names[1..], cursor)
    else After(names[1..], cursor)
  }

  function Stated(names: seq<string>, stat: Stats): seq<Entry> {
    if names == [] then []
    else
      var n := names[|names| - 1];
      Stated(names[..|names| - 1], stat) + (if n in stat then [Entry(n, stat[n].size, stat[n].modTime)] else [])
  }

  function Effective(limit: int): nat
    ensures Effective(limit) > 0
  {
    if limit <= 0 then DEFAULT_LIST_LIMIT else limit
  }

  /** The page in terms of the names after the cursor, without any search. */
  function PageSpec(dir: seq<DirEntry>, stat: Stats, cursor: string, limit: int): ListPage {
    var rest := After(Kept(dir), cursor);
    var k := Effective(limit);
    if |rest| <= k then ListPage(Stated(rest, stat), "")
    else ListPage(Stated(rest[..k], stat), rest[k - 1])
  }

  /** The contract of `os.ReadDir`: sorted by name, names are unique and never empty. */
  ghost predicate SortedDir(dir: seq<DirEntry>) {
    (forall i, j :: 0 <= i < j < |dir| ==> Below(dir[i].name, dir[j].name))
    && forall i :: 0 <= i < |dir| ==> dir[i].name != ""
  }

  lemma {:induction false} KeptAscending(dir: seq<DirEntry>)
    requires SortedDir(dir)
    ensures Ascending(Kept(dir))
    ensures forall n :: n in Kept(dir) <==>
      exists i :: 0 <= i < |dir| && dir[i].name == n && !dir[i].isDir && !IsTemp(n)
    ensures "" !in Kept(dir)
  {
    if dir != [] {
      var front, last := dir[..|dir| - 1], dir[|dir| - 1];
      KeptAscending(front);
      forall n
        ensures n in Kept(dir) <==> exists i :: 0 <= i < |dir| && dir[i].name == n && !dir[i].isDir && !IsTemp(n) {
        if n in Kept(front) {
          var i :| 0 <= i < |front| && front[i].name == n && !front[i].isDir && !IsTemp(n);
          assert dir[i] == front[i];
        }
        if i :| 0 <= i < |dir| && dir[i].name == n && !dir[i].isDir && !IsTemp(n) {
          if i < |front| { assert front[i] == dir[i]; }
        }
      }
      forall n | n in Kept(front) ensures Below(n, last.name) {
        var i :| 0 <= i < |front| && front[i].name == n && !front[i].isDir && !IsTemp(n);
        assert dir[i] == front[i];
      }
    }
  }

  lemma {:induction false} AfterMember(names: seq<string>, cursor: string, n: string)
    ensures n in After(names, cursor) <==> n in names && Below(cursor, n)
  {
    if names != [] {
      AfterMember(names[1..], cursor, n);
      assert n in names <==> n == names[0] || n in names[1..];
    }
  }

  lemma {:induction false} AfterMembers(names: seq<string>, cursor: string)
    requires Ascending(names)
    ensures Ascending(After(names, cursor))
    ensures forall n :: n in After(names, cursor) <==> n in names && Below(cursor, n)
  {
    forall n ensures n in After(names, cursor) <==> n in names && Below(cursor, n) {
      AfterMember(names, cursor, n);
    }
    if names != [] {
      AfterMembers(names[1..], cursor);
      var tail := After(names[1..], cursor);
      forall k | 0 <= k < |tail| ensures Below(names[0], tail[k]) {
        assert tail[k] in names[1..];
        var i :| 0 <= i < |names| - 1 && names[1..][i] == tail[k];
        assert names[i + 1] == tail[k];
      }
    }
  }

  /** In a sorted list, the names after the cursor are a suffix: the one the search finds. */
  lemma {:induction false} AfterIsSuffix(names: seq<string>, cursor: string, start: nat)
    requires Ascending(names) && start <= |names|
    requires forall i :: 0 <= i < start ==> !Below(cursor, names[i])
    requires forall i :: start <= i < |names| ==> Below(cursor, names[i])
    ensures After(names, cursor) == names[start..]
  {
    if names != [] {
      if start == 0 {
        AfterIsSuffix(names[1..], cursor, 0);
        assert names == [names[0]] + names[1..];
      } else {
        AfterIsSuffix(names[1..], cursor, start - 1);
        assert names[1..][start - 1..] == names[start..];
      }
    }
  }

  /** The search's test is monotone in the index. */
  lemma TestIsMonotone(names: seq<string>, cursor: string, mid: nat)
    requires Ascending(names) && mid < |names|
    ensures Below(cursor, names[mid]) ==> forall i :: mid <= i < |names| ==> Below(cursor, names[i])
    ensures !Below(cursor, names[mid]) ==> forall i :: 0 <= i <= mid ==> !Below(cursor, names[i])
  {
    BelowIsStrictTotal();
  }

  /** `sort.Search(len(names), func(i int) bool { return names[i] > cursor })`. */
  method Search(names: seq<string>, cursor: string) returns (start: nat)
    requires Ascending(names)
    ensures start <= |names|
    ensures forall i :: 0 <= i < start ==> !Below(cursor, names[i])
    ensures forall i :: start <= i < |names| ==> Below(cursor, names[i])
  {
    var lo, hi := 0, |names|;
    while lo < hi
      invariant 0 <= lo <= hi <= |names|
      invariant forall i :: 0 <= i < lo ==> !Below(cursor, names[i])
      invariant forall i :: hi <= i < |names| ==> Below(cursor, names[i])
    {
      var mid := (lo + hi) / 2;
      TestIsMonotone(names, cursor, mid);
      if !Below(cursor, names[mid]) {
        lo := mid + 1;
      } else {
        hi := mid;
      }
    }
    start := lo;
  }

  /** The loop that drops directories and temporary files. */
  method KeepNames(dir: seq<DirEntry>) returns (names: seq<string>)
    ensures names == Kept(dir)
  {
    names := [];
    for i := 0 to |dir|
      invariant names == Kept(dir[..i])
    {
      assert dir[..i + 1][..i] == dir[..i];
      if dir[i].isDir || IsTemp(dir[i].name) {
        continue;
      }
      names := names + [dir[i].name];
    }
    assert dir[..|dir|] == dir;
  }

  /** The loop that stats the names of the page and skips those removed meanwhile. */
  method StatNames(names: seq<string>, stat: Stats) returns (entries: seq<Entry>)
    ensures entries == Stated(names, stat)
  {
    entries := [];
    for i := 0 to |names|
      invariant entries == Stated(names[..i], stat)
    {
      assert names[..i + 1][..i] == names[..i];
      if names[i] !in stat {
        continue;
      }
      entries := entries + [Entry(names[i], stat[names[i]].size, stat[names[i]].modTime)];
    }
    assert names[..|names|] == names;
  }

  lemma KeptSorted(dir: seq<DirEntry>)
    requires SortedDir(dir)
    ensures Ascending(Kept(dir))
  {
    KeptAscending(dir);
  }

  /** The page between the search's result and the limit is the specified one. */
  lemma PageFromSearch(dir: seq<DirEntry>, stat: Stats, cursor: string, limit: int, start: nat)
    requires SortedDir(dir) && start <= |Kept(dir)|
    requires forall i :: 0 <= i < start ==> !Below(cursor, Kept(dir)[i])
    requires forall i :: start <= i < |Kept(dir)| ==> Below(cursor, Kept(dir)[i])
    ensures var names := Kept(dir);
      var end := if start + Effective(limit) > |names| then |names| else start + Effective(limit);
      PageSpec(dir, stat, cursor, limit) ==
        ListPage(Stated(names[start..end], stat), if end < |names| then names[end - 1] else "")
  {
    var names, k := Kept(dir), Effective(limit);
    KeptAscending(dir);
    AfterIsSuffix(names, cursor, start);
    if start + k >= |names| {
      assert names[start..|names|] == names[start..];
    } else {
      assert names[start..start + k] == names[start..][..k];
    }
  }

  /** `List`; `dir` is None when the directory cannot be read. */
  method List(dir: Option<seq<DirEntry>>, stat: Stats, cursor: string, limit: int) returns (page: Option<ListPage>)
    requires dir.Some? ==> SortedDir(dir.value)
    ensures page.Some? <==> dir.Some?
    ensures dir.Some? ==> page.value == PageSpec(dir.value, stat, cursor, limit)
  {
    var count := if limit <= 0 then DEFAULT_LIST_LIMIT else limit;
    if dir.None? {
      return None;
    }
    var names := KeepNames(dir.value);
    KeptSorted(dir.value);
    var start := Search(names, cursor);
    var end := start + count;
    if end > |names| {
      end := |names|;
    }
    PageFromSearch(dir.value, stat, cursor, limit, start);
    var entries := StatNames(names[start..end], stat);
    page := Some(ListPage(entries, if end < |names| then names[end - 1] else ""));
  }

  // ---------------------------------------------------------------- the walk

  /** What one `List` call sees: the directory as read, and the answers of the later stats. */
  datatype Snapshot = Snapshot(dir: seq<DirEntry>, stat: Stats)

  /** A directory of the cache: sorted, and every name `List` keeps is a valid hash. */
  ghost predicate CacheDir(dir: seq<DirEntry>) {
    SortedDir(dir) && forall n :: n in Kept(dir) ==> ValidHash(n)
  }

  lemma NextCursorAdvances(dir: seq<DirEntry>, stat: Stats, cursor: string, limit: int)
    requires CacheDir(dir)
    ensures var next := PageSpec(dir, stat, cursor, limit).nextCursor;
      next != "" ==> Below(cursor, next) && Remaining(next) < Remaining(cursor)
  {
    KeptAscending(dir);
    AfterMembers(Kept(dir), cursor);
    var rest, k := After(Kept(dir), cursor), Effective(limit);
    if |rest| > k {
      assert rest[k - 1] in rest;
      RemainingDecreases(cursor, rest[k - 1]);
    }
  }

  /** Everything a client receives by following `NextCursor`, when the `t`-th call sees `env(t)`.
      It ends however much others upload: the cursor advances in the finite set of hashes. */
  ghost function Walk(env: nat -> Snapshot, t: nat, cursor: string, limit: int): seq<Entry>
    requires forall i :: CacheDir(env(i).dir)
    decreases Remaining(cursor)
  {
    var page := PageSpec(env(t).dir, env(t).stat, cursor, limit);
    NextCursorAdvances(env(t).dir, env(t).stat, cursor, limit);
    page.entries + (if page.nextCursor == "" then [] else Walk(env, t + 1, page.nextCursor, limit))
  }

  lemma {:induction false} StatedEntry(names: seq<string>, stat: Stats, i: nat)
    requires i < |Stated(names, stat)|
    ensures |Stated(names, stat)| <= |names|
    ensures var e := Stated(names, stat)[i];
      e.hash in names && e.hash in stat && e == Entry(e.hash, stat[e.hash].size, stat[e.hash].modTime)
  {
    var front := names[..|names| - 1];
    StatedLength(names, stat);
    if i < |Stated(front, stat)| {
      StatedEntry(front, stat, i);
    }
  }

  lemma {:induction false} StatedLength(names: seq<string>, stat: Stats)
    ensures |Stated(names, stat)| <= |names|
  {
    if names != [] {
      StatedLength(names[..|names| - 1], stat);
    }
  }

  lemma {:induction false} StatedHas(names: seq<string>, stat: Stats, n: string) returns (i: nat)
    requires n in names && n in stat
    ensures i < |Stated(names, stat)| && Stated(names, stat)[i].hash == n
  {
    var front, last := names[..|names| - 1], names[|names| - 1];
    if n == last {
      i := |Stated(names, stat)| - 1;
    } else {
      i := StatedHas(front, stat, n);
      assert Stated(names, stat)[i] == Stated(front, stat)[i];
    }
  }

  lemma {:induction false} StatedAscends(names: seq<string>, stat: Stats)
    requires Ascending(names)
    ensures var es := Stated(names, stat); forall i, j :: 0 <= i < j < |es| ==> Below(es[i].hash, es[j].hash)
  {
    if names != [] {
      var front, last := names[..|names| - 1], names[|names| - 1];
      StatedAscends(front, stat);
      var fs := Stated(front, stat);
      forall i | 0 <= i < |fs| ensures Below(fs[i].hash, last) {
        StatedEntry(front, stat, i);
        var k :| 0 <= k < |front| && front[k] == fs[i].hash;
        assert names[k] == fs[i].hash;
      }
    }
  }

  /** The names of a page: those after the cursor, up to and including the next cursor. */
  function Shown(dir: seq<DirEntry>, cursor: string, limit: int): seq<string> {
    var rest, k := After(Kept(dir), cursor), Effective(limit);
    if |rest| <= k then rest else rest[..k]
  }

  /** Cutting an ascending sequence off behind its `k`-th name keeps those not after that name. */
  lemma CutBehind(rest: seq<string>, k: nat)
    requires Ascending(rest) && 0 < k <= |rest|
    ensures Ascending(rest[..k])
    ensures forall n :: n in rest[..k] <==> n in rest && !Below(rest[k - 1], n)
  {
    BelowIsStrictTotal();
    forall n | n in rest ensures n in rest[..k] <==> !Below(rest[k - 1], n) {
      var i :| 0 <= i < |rest| && rest[i] == n;
      if i < k { assert rest[..k][i] == n; }
    }
  }

  lemma ShownMeaning(dir: seq<DirEntry>, stat: Stats, cursor: string, limit: int)
    requires CacheDir(dir)
    ensures var names, next := Shown(dir, cursor, limit), PageSpec(dir, stat, cursor, limit).nextCursor;
      && Ascending(names) && |names| <= Effective(limit)
      && PageSpec(dir, stat, cursor, limit).entries == Stated(names, stat)
      && (forall n :: n in names <==> n in Kept(dir) && Below(cursor, n) && (next == "" || !Below(next, n)))
      && (next != "" ==> Below(cursor, next) && next in Kept(dir))
  {
    KeptAscending(dir);
    AfterMembers(Kept(dir), cursor);
    var rest, k := After(Kept(dir), cursor), Effective(limit);
    if |rest| > k {
      assert rest[k - 1] in rest;
      CutBehind(rest, k);
    }
  }

  /** What a page says, without naming how it is computed: strictly ascending entries after the
      cursor, no more than the limit, each listed and answered by its stat. */
  lemma PageMeaning(dir: seq<DirEntry>, stat: Stats, cursor: string, limit: int)
    requires CacheDir(dir)
    ensures var p := PageSpec(dir, stat, cursor, limit);
      && |p.entries| <= Effective(limit)
      && (forall i, j :: 0 <= i < j < |p.entries| ==> Below(p.entries[i].hash, p.entries[j].hash))
      && (forall i :: 0 <= i < |p.entries| ==> EntryFits(dir, stat, cursor, p.nextCursor, p.entries[i]))
      && (p.nextCursor != "" ==> Below(cursor, p.nextCursor) && ValidHash(p.nextCursor))
  {
    var p, names := PageSpec(dir, stat, cursor, limit), Shown(dir, cursor, limit);
    ShownMeaning(dir, stat, cursor, limit);
    StatedLength(names, stat);
    StatedAscends(names, stat);
    forall i | 0 <= i < |p.entries| ensures EntryFits(dir, stat, cursor, p.nextCursor, p.entries[i]) {
      StatedEntry(names, stat, i);
    }
  }

  /** A page is full when more is to come: as many entries as asked for, or 50, when every listed name
      can be stated. */
  lemma PageIsFull(dir: seq<DirEntry>, stat: Stats, cursor: string, limit: int)
    requires CacheDir(dir) && forall n :: n in Kept(dir) ==> n in stat
    ensures var p := PageSpec(dir, stat, cursor, limit);
      && |p.entries| <= (if limit <= 0 then 50 else limit)
      && (p.nextCursor != "" ==> |p.entries| == if limit <= 0 then 50 else limit)
  {
    var names := Shown(dir, cursor, limit);
    ShownMeaning(dir, stat, cursor, limit);
    AllStated(names, stat);
  }

  lemma {:induction false} AllStated(names: seq<string>, stat: Stats)
    requires forall n :: n in names ==> n in stat
    ensures |Stated(names, stat)| == |names|
  {
    if names != [] {
      AllStated(names[..|names| - 1], stat);
    }
  }

  predicate EntryFits(dir: seq<DirEntry>, stat: Stats, cursor: string, next: string, e: Entry) {
    && e.hash in Kept(dir) && Below(cursor, e.hash) && (next == "" || !Below(next, e.hash))
    && e.hash in stat && e == Entry(e.hash, stat[e.hash].size, stat[e.hash].modTime)
  }

  /** Nothing is missing from a page: a listed, stated name after the cursor is on it, or
      comes after the next cursor. */
  lemma PageCovers(dir: seq<DirEntry>, stat: Stats, cursor: string, limit: int, n: string)
    requires CacheDir(dir) && n in Kept(dir) && n in stat && Below(cursor, n)
    ensures var p := PageSpec(dir, stat, cursor, limit);
      (exists i :: 0 <= i < |p.entries| && p.entries[i].hash == n) || (p.nextCursor != "" && Below(p.nextCursor, n))
  {
    ShownMeaning(dir, stat, cursor, limit);
    if n in Shown(dir, cursor, limit) {
      var i := StatedHas(Shown(dir, cursor, limit), stat, n);
    }
  }

  /** Strictly ascending hashes, all after the cursor. */
  ghost predicate AscendsFrom(cursor: string, es: seq<Entry>) {
    && (forall i :: 0 <= i < |es| ==> Below(cursor, es[i].hash))
    && (forall i, j :: 0 <= i < j < |es| ==> Below(es[i].hash, es[j].hash))
  }

  lemma AscendsJoin(cursor: string, es: seq<Entry>, next: string, fs: seq<Entry>)
    requires AscendsFrom(cursor, es) && AscendsFrom(next, fs) && Below(cursor, next)
    requires forall i :: 0 <= i < |es| ==> !Below(next, es[i].hash)
    ensures AscendsFrom(cursor, es + fs)
  {
    forall i, j | 0 <= i < |es| && 0 <= j < |fs| ensures Below(es[i].hash, fs[j].hash) {
      NotAfterThenBelow(es[i].hash, next, fs[j].hash);
    }
    forall j | 0 <= j < |fs| ensures Below(cursor, fs[j].hash) {
      BelowTransitive(cursor, next, fs[j].hash);
    }
  }

  /** At most once: under arbitrary uploads and deletions by others, a walk returns strictly
      ascending hashes after the cursor, so no hash twice. */
  lemma {:induction false} WalkAscends(env: nat -> Snapshot, t: nat, cursor: string, limit: int)
    requires forall i :: CacheDir(env(i).dir)
    ensures AscendsFrom(cursor, Walk(env, t, cursor, limit))
    decreases Remaining(cursor)
  {
    var p := PageSpec(env(t).dir, env(t).stat, cursor, limit);
    PageMeaning(env(t).dir, env(t).stat, cursor, limit);
    NextCursorAdvances(env(t).dir, env(t).stat, cursor, limit);
    assert AscendsFrom(cursor, p.entries) by {
      assert forall i :: 0 <= i < |p.entries| ==>
        EntryFits(env(t).dir, env(t).stat, cursor, p.nextCursor, p.entries[i]);
    }
    if p.nextCursor != "" {
      WalkAscends(env, t + 1, p.nextCursor, limit);
      assert forall i :: 0 <= i < |p.entries| ==>
        EntryFits(env(t).dir, env(t).stat, cursor, p.nextCursor, p.entries[i]);
      AscendsJoin(cursor, p.entries, p.nextCursor, Walk(env, t + 1, p.nextCursor, limit));
    } else {
      assert p.entries + [] == p.entries;
    }
  }

  /** Never missed: a hash that is listed and can be stated every time is returned. */
  lemma {:induction false} WalkCovers(env: nat -> Snapshot, t: nat, cursor: string, limit: int, hash: string)
    returns (i: nat)
    requires forall j :: CacheDir(env(j).dir)
    requires forall j :: j >= t ==> hash in Kept(env(j).dir) && hash in env(j).stat
    requires Below(cursor, hash)
    ensures i < |Walk(env, t, cursor, limit)| && Walk(env, t, cursor, limit)[i].hash == hash
    decreases Remaining(cursor)
  {
    var p := PageSpec(env(t).dir, env(t).stat, cursor, limit);
    NextCursorAdvances(env(t).dir, env(t).stat, cursor, limit);
    PageCovers(env(t).dir, env(t).stat, cursor, limit, hash);
    if k :| 0 <= k < |p.entries| && p.entries[k].hash == hash {
      i := k;
    } else {
      var k := WalkCovers(env, t + 1, p.nextCursor, limit, hash);
      i := |p.entries| + k;
      assert Walk(env, t, cursor, limit) == p.entries + Walk(env, t + 1, p.nextCursor, limit);
    }
  }

  /** Nothing is invented: everything a walk returns was listed and stated by one of its calls. */
  lemma {:induction false} WalkIsSound(env: nat -> Snapshot, t: nat, cursor: string, limit: int, i: nat)
    returns (u: nat)
    requires forall j :: CacheDir(env(j).dir)
    requires i < |Walk(env, t, cursor, limit)|
    ensures var e := Walk(env, t, cursor, limit)[i];
      u >= t && e.hash in Kept(env(u).dir) && e.hash in env(u).stat
      && e == Entry(e.hash, env(u).stat[e.hash].size, env(u).stat[e.hash].modTime)
    decreases Remaining(cursor)
  {
    var p := PageSpec(env(t).dir, env(t).stat, cursor, limit);
    PageMeaning(env(t).dir, env(t).stat, cursor, limit);
    NextCursorAdvances(env(t).dir, env(t).stat, cursor, limit);
    if i < |p.entries| {
      assert EntryFits(env(t).dir, env(t).stat, cursor, p.nextCursor, p.entries[i]);
      u := t;
    } else {
      u := WalkIsSound(env, t + 1, p.nextCursor, limit, i - |p.entries|);
    }
  }

  function Hashes(entries: seq<Entry>): seq<string> {
    seq(|entries|, i requires 0 <= i < |entries| => entries[i].hash)
  }

  /** Paging exactness under interference. From the empty cursor, with any limit: each hash
      comes at most once, and a hash present throughout exactly once. */
  lemma PagingExact(env: nat -> Snapshot, limit: int, hash: string)
    requires forall i :: CacheDir(env(i).dir)
    ensures var w := Hashes(Walk(env, 0, "", limit));
      && (forall i, j :: 0 <= i < j < |w| ==> w[i] != w[j])
      && ((forall i :: hash in Kept(env(i).dir) && hash in env(i).stat) ==> hash in w)
  {
    var walk := Walk(env, 0, "", limit);
    WalkAscends(env, 0, "", limit);
    BelowIsStrictTotal();
    assert forall i, j :: 0 <= i < j < |walk| ==> walk[i].hash != walk[j].hash;
    if forall i :: hash in Kept(env(i).dir) && hash in env(i).stat {
      KeptAscending(env(0).dir);
      assert hash in Kept(env(0).dir);
      var i := WalkCovers(env, 0, "", limit, hash);
      assert Hashes(walk)[i] == hash;
    }
  }

  /** Paging exactness alone: when nothing interferes, the walk returns the sorted visible names. */
  lemma QuietPagingExact(env: nat -> Snapshot, limit: int)
    requires forall i :: CacheDir(env(i).dir)
    requires forall i :: env(i) == env(0)
    requires forall n :: n in Kept(env(0).dir) ==> n in env(0).stat
    ensures Hashes(Walk(env, 0, "", limit)) == Kept(env(0).dir)
  {
    var walk, names := Walk(env, 0, "", limit), Kept(env(0).dir);
    WalkAscends(env, 0, "", limit);
    KeptAscending(env(0).dir);
    forall n ensures n in Hashes(walk) <==> n in names {
      if n in names {
        var i := WalkCovers(env, 0, "", limit, n);
        assert Hashes(walk)[i] == n;
      }
      if n in Hashes(walk) {
        var i :| 0 <= i < |walk| && Hashes(walk)[i] == n;
        var u := WalkIsSound(env, 0, "", limit, i);
        assert env(u) == env(0);
      }
    }
    AscendingUnique(Hashes(walk), names);
  }
}
