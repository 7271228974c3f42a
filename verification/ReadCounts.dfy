/** Read counting over whole runs: recordings finish, fail, or are erased with the statistics,
    long after the download they belong to was answered. */
module ReadCounts {
  import opened Wrappers
  import opened Tokens
  import opened Server
  import opened ServerRuns

  /** What happened to the downloads of one hash: answered, recorded in vain, recorded since the
      statistics were last cleared (and when last), and recorded before that. */
  datatype Tally = Tally(hits: nat, lost: nat, live: nat, lastRecorded: Option<int>, erased: nat)

  /** One request counted; a recording is known by its answer. */
  function Counted(c: Tally, m: Move, a: Answer, hash: string): Tally {
    match m.request
    case Serve(_, op, _) => if op == Download(hash) && a.Hit? then c.(hits := c.hits + 1) else c
    case FinishRecording(h) =>
      if h != hash then c
      else if a == Errored then c.(lost := c.lost + 1)
      else if a == Succeeded then c.(live := c.live + 1, lastRecorded := Some(m.world.now))
      else c
    case ClearStats(h) =>
      if h == hash && a == Succeeded then c.(live := 0, lastRecorded := None, erased := c.erased + c.live) else c
    case _ => c
  }

  function TallyOf(moves: seq<Move>, answers: seq<Answer>, hash: string): Tally
    requires |answers| == |moves|
  {
    if moves == [] then Tally(0, 0, 0, None, 0)
    else
      var n := |moves| - 1;
      Counted(TallyOf(moves[..n], answers[..n], hash), moves[n], answers[n], hash)
  }

  /** Each answered download is pending, lost, erased, or still counted; and the row of the hash
      is exactly the recordings since its statistics were last cleared. */
  predicate Balanced(c: Tally, s: State, hash: string) {
    && c.hits == s.pending[hash] + c.lost + c.erased + c.live
    && CacheStore.StatsOf(s.stats, hash) == CacheStore.ReadStats(c.live, c.lastRecorded)
    && (hash in s.stats <==> c.live > 0)
  }

  /** How a storage operation moves the pending recordings. */
  lemma ServeMoves(d: Digest, s: State, m: Move)
    requires m.request.Serve?
    ensures var (t, a) := Next(d, s, m.request, m.world);
      && t.stats == s.stats && t.pending == (if a.Hit? then s.pending + multiset{m.request.op.hash} else s.pending)
      && (a.Hit? ==> m.request.op.Download?)
  {
  }

  /** How a recording ends. */
  lemma RecordingMoves(s: State, h: string, w: World)
    ensures var (t, a) := AfterRecording(s, h, w);
      && t.pending == (if a in {Succeeded, Errored} then s.pending - multiset{h} else s.pending)
      && (a in {Succeeded, Errored} ==> h in s.pending)
      && t.stats == (if a == Succeeded then CacheStore.RecordRead(s.stats, h, w.now) else s.stats)
  {
  }

  lemma OthersMoveNothing(d: Digest, s: State, m: Move)
    requires !m.request.Serve? && !m.request.FinishRecording?
    ensures var (t, a) := Next(d, s, m.request, m.world);
      && t.pending == s.pending
      && t.stats == (if m.request.ClearStats? && a == Succeeded then s.stats - {m.request.hash} else s.stats)
  {
  }

  lemma RecordingBalances(s: State, h: string, w: World, c: Tally, hash: string)
    requires Balanced(c, s, hash)
    ensures var (t, a) := AfterRecording(s, h, w); Balanced(Counted(c, Move(FinishRecording(h), w), a, hash), t, hash)
  {
    RecordingMoves(s, h, w);
  }

  lemma ServeBalances(d: Digest, s: State, m: Move, c: Tally, hash: string)
    requires Balanced(c, s, hash) && m.request.Serve?
    ensures var (t, a) := Next(d, s, m.request, m.world); Balanced(Counted(c, m, a, hash), t, hash)
  {
    ServeMoves(d, s, m);
  }

  lemma OthersBalance(d: Digest, s: State, m: Move, c: Tally, hash: string)
    requires Balanced(c, s, hash) && !m.request.Serve? && !m.request.FinishRecording?
    ensures var (t, a) := Next(d, s, m.request, m.world); Balanced(Counted(c, m, a, hash), t, hash)
  {
    OthersMoveNothing(d, s, m);
  }

  lemma OneRequestBalances(d: Digest, s: State, m: Move, c: Tally, hash: string)
    requires Balanced(c, s, hash)
    ensures var (t, a) := Next(d, s, m.request, m.world); Balanced(Counted(c, m, a, hash), t, hash)
  {
    if m.request.Serve? {
      ServeBalances(d, s, m, c, hash);
    } else if m.request.FinishRecording? {
      RecordingBalances(s, m.request.hash, m.world, c, hash);
    } else {
      OthersBalance(d, s, m, c, hash);
    }
  }

  /** Conservation of reads, in every state of every run, for every hash. */
  lemma {:induction false} ReadsAreConserved(d: Digest, s: State, moves: seq<Move>, hash: string)
    requires s.pending == multiset{} && s.stats == map[]
    ensures var (t, answers) := Play(d, s, moves); Balanced(TallyOf(moves, answers, hash), t, hash)
  {
    if moves != [] {
      var n := |moves| - 1;
      ReadsAreConserved(d, s, moves[..n], hash);
      var (t, answers) := Play(d, s, moves[..n]);
      assert Play(d, s, moves).1[..n] == answers;
      OneRequestBalances(d, t, moves[n], TallyOf(moves[..n], answers, hash), hash);
    }
  }

  lemma RecordingAnswer(s: State, c: Tally, hash: string, w: World)
    requires Balanced(c, s, hash)
    ensures AfterRecording(s, hash, w).1 ==
      if c.hits == c.lost + c.erased + c.live then Nothing else if w.dbFails then Errored else Succeeded
  {
  }

  /** Every recording left pending can be finished: nothing happens exactly if all downloads of the hash
      are accounted for, and else the answer is an error exactly if the database fails. */
  lemma RecordingAnswers(d: Digest, s: State, moves: seq<Move>, i: nat)
    requires s.pending == multiset{} && s.stats == map[] && i < |moves| && moves[i].request.FinishRecording?
    ensures var answers := Play(d, s, moves).1;
      var c := TallyOf(moves[..i], answers[..i], moves[i].request.hash);
      answers[i] ==
        if c.hits == c.lost + c.erased + c.live then Nothing
        else if moves[i].world.dbFails then Errored else Succeeded
  {
    var hash := moves[i].request.hash;
    PastBalances(d, s, moves, i, hash);
    RecordingInRun(d, s, moves, i);
    var c := TallyOf(moves[..i], Play(d, s, moves).1[..i], hash);
    RecordingAnswer(Play(d, s, moves[..i]).0, c, hash, moves[i].world);
  }

  lemma PastBalances(d: Digest, s: State, moves: seq<Move>, i: nat, hash: string)
    requires s.pending == multiset{} && s.stats == map[] && i < |moves|
    ensures Balanced(TallyOf(moves[..i], Play(d, s, moves).1[..i], hash), Play(d, s, moves[..i]).0, hash)
  {
    PastAnswers(d, s, moves, i);
    ReadsAreConserved(d, s, moves[..i], hash);
  }

  lemma RecordingInRun(d: Digest, s: State, moves: seq<Move>, i: nat)
    requires i < |moves| && moves[i].request.FinishRecording?
    ensures Play(d, s, moves).1[i] == AfterRecording(Play(d, s, moves[..i]).0, moves[i].request.hash, moves[i].world).1
  {
    PlayPrefix(d, s, moves, i);
  }
}
