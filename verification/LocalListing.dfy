/** `List` over the directory the protocol works on: pages read at different moments of one
    interleaving of uploads, downloads and deletions. */
module LocalListing {
  import opened Names
  import opened LocalProtocol
  import opened LocalRefinement
  import opened Listing

  /** What `os.ReadDir` answers in state `s`: every name once, sorted, temporary ones included. */
  ghost predicate DirectoryOf(s: State, dir: seq<DirEntry>) {
    && SortedDir(dir)
    && (forall i :: 0 <= i < |dir| ==> dir[i].name in s.fs.names && !dir[i].isDir)
    && (forall n :: n in s.fs.names ==> exists i :: 0 <= i < |dir| && dir[i].name == n)
  }

  /** In every reachable state, the names `List` keeps are exactly the visible artifacts, and all
      of them are valid hashes. */
  lemma KeptIsVisible(b: seq<State>, steps: seq<Step>, i: nat, dir: seq<DirEntry>)
    requires Behaviour(b, steps) && i < |b| && DirectoryOf(b[i], dir)
    ensures CacheDir(dir)
    ensures forall n :: n in Kept(dir) <==> n in Visible(b[i])
  {
    KeptAscending(dir);
    forall n ensures n in Kept(dir) <==> n in Visible(b[i]) {
      TempsInvisible(b, steps, i, n);
    }
    forall n | n in Kept(dir) ensures ValidHash(n) {
      TempsInvisible(b, steps, i, n);
    }
  }

  // ---------------------------------------------------------------- a walk through a behaviour

  predicate VisibleAt(b: seq<State>, j: nat, n: string)
    requires j < |b|
  {
    n in Visible(b[j])
  }

  predicate StatedAt(b: seq<State>, j: nat, n: string, info: Info)
    requires j < |b|
  {
    n in Visible(b[j]) && info.size == |Visible(b[j])[n]|
  }

  /** Page `t` reads the directory at `readAt(t)`, and the sizes of its names one by one before
      the next page: a name that stays visible meanwhile has its size read. */
  ghost predicate ObservesAt(b: seq<State>, env: nat -> Snapshot, readAt: nat -> nat, t: nat) {
    && readAt(t) <= readAt(t + 1) < |b|
    && DirectoryOf(b[readAt(t)], env(t).dir)
    && (forall n :: n in env(t).stat ==>
          exists j :: readAt(t) <= j <= readAt(t + 1) && StatedAt(b, j, n, env(t).stat[n]))
    && (forall n :: n in Kept(env(t).dir) && n !in env(t).stat ==>
          exists j :: readAt(t) <= j <= readAt(t + 1) && !VisibleAt(b, j, n))
  }

  lemma {:induction false} ReadAtMonotone(b: seq<State>, env: nat -> Snapshot, readAt: nat -> nat, t: nat)
    requires forall u :: ObservesAt(b, env, readAt, u)
    ensures readAt(0) <= readAt(t)
  {
    if t > 0 {
      ReadAtMonotone(b, env, readAt, t - 1);
      assert ObservesAt(b, env, readAt, t - 1);
    }
  }

  /** Paging against the protocol. Whatever uploads and deletions run in between: no hash is
      returned twice, one that is visible all the time is returned, and each returned entry is
      a valid hash with the size of an artifact that was visible under it. */
  lemma PagingThroughBehaviour(b: seq<State>, steps: seq<Step>, env: nat -> Snapshot, readAt: nat -> nat,
                               limit: int, hash: string)
    requires Behaviour(b, steps) && forall t :: ObservesAt(b, env, readAt, t)
    ensures forall t :: CacheDir(env(t).dir)
    ensures var walk := Walk(env, 0, "", limit);
      && (forall i, j :: 0 <= i < j < |walk| ==> walk[i].hash != walk[j].hash)
      && ((forall j :: readAt(0) <= j < |b| ==> VisibleAt(b, j, hash)) ==>
          exists i :: 0 <= i < |walk| && walk[i].hash == hash)
      && (forall i :: 0 <= i < |walk| ==> Genuine(b, walk[i]))
  {
    forall t ensures CacheDir(env(t).dir) {
      assert ObservesAt(b, env, readAt, t);
      KeptIsVisible(b, steps, readAt(t), env(t).dir);
    }
    var walk := Walk(env, 0, "", limit);
    WalkAscends(env, 0, "", limit);
    BelowIsStrictTotal();
    if forall j :: readAt(0) <= j < |b| ==> VisibleAt(b, j, hash) {
      forall t ensures hash in Kept(env(t).dir) && hash in env(t).stat {
        AlwaysListed(b, steps, env, readAt, t, hash);
      }
      KeptAscending(env(0).dir);
      var i := WalkCovers(env, 0, "", limit, hash);
    }
    forall i | 0 <= i < |walk| ensures Genuine(b, walk[i]) {
      var u := WalkIsSound(env, 0, "", limit, i);
      assert ObservesAt(b, env, readAt, u);
      var j :| readAt(u) <= j <= readAt(u + 1) && StatedAt(b, j, walk[i].hash, env(u).stat[walk[i].hash]);
      TempsInvisible(b, steps, j, walk[i].hash);
      assert SizedAt(b, j, walk[i]);
    }
  }

  predicate SizedAt(b: seq<State>, j: nat, e: Entry) {
    j < |b| && e.hash in Visible(b[j]) && e.size == |Visible(b[j])[e.hash]|
  }

  ghost predicate Genuine(b: seq<State>, e: Entry) {
    ValidHash(e.hash) && exists j :: SizedAt(b, j, e)
  }

  lemma AlwaysListed(b: seq<State>, steps: seq<Step>, env: nat -> Snapshot, readAt: nat -> nat, t: nat, hash: string)
    requires Behaviour(b, steps) && forall u :: ObservesAt(b, env, readAt, u)
    requires forall j :: readAt(0) <= j < |b| ==> VisibleAt(b, j, hash)
    ensures hash in Kept(env(t).dir) && hash in env(t).stat
  {
    assert ObservesAt(b, env, readAt, t);
    ReadAtMonotone(b, env, readAt, t);
    KeptIsVisible(b, steps, readAt(t), env(t).dir);
    assert VisibleAt(b, readAt(t), hash);
  }
}
