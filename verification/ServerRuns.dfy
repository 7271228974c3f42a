/** What holds over whole runs of the server, whatever fails on the way. */
module ServerRuns {
  import opened Wrappers
  import opened Names
  import opened Contract
  import opened Tokens
  import opened Server

  // ---------------------------------------------------------------- prefixes of a run

  lemma {:induction false} PastAnswers(d: Digest, s: State, moves: seq<Move>, n: nat)
    requires n <= |moves|
    ensures Play(d, s, moves).1[..n] == Play(d, s, moves[..n]).1
  {
    if n == |moves| {
      TakeAll(moves);
      TakeAll(Play(d, s, moves).1);
    } else {
      var m := |moves| - 1;
      PastAnswers(d, s, moves[..m], n);
      FrontAnswers(d, s, moves);
      TakeTwice(moves, m, n);
      TakeTwice(Play(d, s, moves).1, m, n);
    }
  }

  lemma TakeAll<T>(a: seq<T>)
    ensures a[..|a|] == a
  {
  }

  lemma TakeTwice<T>(a: seq<T>, m: nat, n: nat)
    requires n <= m <= |a|
    ensures a[..m][..n] == a[..n]
  {
  }

  lemma FrontAnswers(d: Digest, s: State, moves: seq<Move>)
    requires moves != []
    ensures Play(d, s, moves).1[..|moves| - 1] == Play(d, s, moves[..|moves| - 1]).1
  {
  }

  lemma LastAnswer(d: Digest, s: State, moves: seq<Move>)
    requires moves != []
    ensures var n := |moves| - 1;
      Play(d, s, moves).1[n] == Next(d, Play(d, s, moves[..n]).0, moves[n].request, moves[n].world).1
  {
  }

  /** The answers before request `n`, and the answer to it. */
  lemma PlayPrefix(d: Digest, s: State, moves: seq<Move>, n: nat)
    requires n <= |moves|
    ensures Play(d, s, moves).1[..n] == Play(d, s, moves[..n]).1
    ensures n < |moves| ==>
      Play(d, s, moves).1[n] == Next(d, Play(d, s, moves[..n]).0, moves[n].request, moves[n].world).1
  {
    PastAnswers(d, s, moves, n);
    if n < |moves| {
      PastAnswers(d, s, moves, n + 1);
      LastAnswer(d, s, moves[..n + 1]);
      assert moves[..n + 1][..n] == moves[..n];
      assert Play(d, s, moves).1[n] == Play(d, s, moves).1[..n + 1][n];
    }
  }

  lemma PlayStep(d: Digest, s: State, moves: seq<Move>, n: nat)
    requires n < |moves|
    ensures Play(d, s, moves[..n + 1]).0 == Next(d, Play(d, s, moves[..n]).0, moves[n].request, moves[n].world).0
  {
    assert moves[..n + 1][..n] == moves[..n];
  }

  // ---------------------------------------------------------------- handlers are runs

  lemma {:induction false} PlayConcat(d: Digest, s: State, a: seq<Move>, b: seq<Move>)
    ensures Play(d, s, a + b).0 == Play(d, Play(d, s, a).0, b).0
    ensures Play(d, s, a + b).1 == Play(d, s, a).1 + Play(d, Play(d, s, a).0, b).1
  {
    if b == [] {
      assert a + b == a;
    } else {
      var m := |b| - 1;
      PlayConcat(d, s, a, b[..m]);
      assert (a + b)[..|a + b| - 1] == a + b[..m];
    }
  }

  lemma PlayOne(d: Digest, s: State, a: seq<Move>, m: Move)
    ensures Play(d, s, a + [m]).0 == Next(d, Play(d, s, a).0, m.request, m.world).0
    ensures Play(d, s, a + [m]).1 == Play(d, s, a).1 + [Next(d, Play(d, s, a).0, m.request, m.world).1]
  {
    assert (a + [m])[..|a|] == a;
  }

  lemma PlayFirst(d: Digest, s: State, m: Move)
    ensures Play(d, s, [m]).0 == Next(d, s, m.request, m.world).0
    ensures Play(d, s, [m]).1 == [Next(d, s, m.request, m.world).1]
  {
    PlayOne(d, s, [], m);
    assert [] + [m] == [m];
  }

  lemma PlayBehind(d: Digest, s: State, m: Move, moves: seq<Move>, k: nat)
    requires k < |moves|
    ensures var t := Next(d, s, m.request, m.world).0;
      && Play(d, s, [m] + moves).1[k + 1] == Play(d, t, moves).1[k]
      && Play(d, s, ([m] + moves)[..k + 1]).0 == Play(d, t, moves[..k]).0
  {
    AnswerBehind(d, s, m, moves, k);
    StateBehind(d, s, m, moves[..k]);
    TakeBehind(m, moves, k);
  }

  lemma TakeBehind<T>(x: T, a: seq<T>, k: nat)
    requires k <= |a|
    ensures ([x] + a)[..k + 1] == [x] + a[..k]
  {
  }

  lemma IndexBehind<T>(a: seq<T>, b: seq<T>, k: nat)
    requires k < |b|
    ensures (a + b)[|a| + k] == b[k]
  {
  }

  lemma StateBehind(d: Digest, s: State, m: Move, moves: seq<Move>)
    ensures Play(d, s, [m] + moves).0 == Play(d, Next(d, s, m.request, m.world).0, moves).0
  {
    PlayFirst(d, s, m);
    PlayConcat(d, s, [m], moves);
  }

  lemma AnswerBehind(d: Digest, s: State, m: Move, moves: seq<Move>, k: nat)
    requires k < |moves|
    ensures Play(d, s, [m] + moves).1[k + 1] == Play(d, Next(d, s, m.request, m.world).0, moves).1[k]
  {
    PlayFirst(d, s, m);
    PlayConcat(d, s, [m], moves);
    IndexBehind(Play(d, s, [m]).1, Play(d, Play(d, s, [m]).0, moves).1, k);
  }

  /** A state and an answer are what a run ends with. */
  predicate EndsWith(d: Digest, s: State, moves: seq<Move>, end: (State, Answer)) {
    moves != [] && Play(d, s, moves).0 == end.0 && Play(d, s, moves).1[|moves| - 1] == end.1
  }

  lemma EndsWithLater(d: Digest, s: State, a: seq<Move>, b: seq<Move>, end: (State, Answer))
    requires EndsWith(d, Play(d, s, a).0, b, end)
    ensures EndsWith(d, s, a + b, end)
  {
    PlayConcat(d, s, a, b);
  }

  function FinishingMoves(d: Digest, s: State, call: nat, op: Op, w: World, others: (seq<Move>, seq<Move>)): seq<Move> {
    others.0 + ([Move(Hold(call), w)] + (others.1 + [Move(Serve(call, op, Play(d, s, others.0).0.live), w)]))
  }

  lemma FinishingIsRun(d: Digest, s: State, call: nat, op: Op, w: World, others: (seq<Move>, seq<Move>))
    ensures EndsWith(d, s, FinishingMoves(d, s, call, op, w, others), Finished(d, s, call, op, w, others))
  {
    var t, hold := Play(d, s, others.0).0, Move(Hold(call), w);
    var serve := Move(Serve(call, op, t.live), w);
    var end := Finished(d, s, call, op, w, others);
    PlayFirst(d, t, hold);
    PlayOne(d, AfterHold(t, call).0, others.1, serve);
    assert EndsWith(d, AfterHold(t, call).0, others.1 + [serve], end);
    EndsWithLater(d, t, [hold], others.1 + [serve], end);
    EndsWithLater(d, s, others.0, [hold] + (others.1 + [serve]), end);
  }

  /** The moves of a whole download and of the requests it is interleaved with. */
  function DownloadMoves(d: Digest, s: State, call: nat, hash: string, token: string, worlds: (World, World),
                         others: (seq<Move>, seq<Move>)): seq<Move>
  {
    var (t, a) := AfterArrive(d, s, call, Download(hash), token, worlds.0);
    [Move(Arrive(call, Download(hash), token), worlds.0)]
      + (if a != GoesOn then [] else FinishingMoves(d, t, call, Download(hash), worlds.1, others))
  }

  /** A download interleaved with other requests is a run, and answers what its last move answers. */
  lemma DownloadsAreRuns(d: Digest, s: State, call: nat, hash: string, token: string, worlds: (World, World),
                         others: (seq<Move>, seq<Move>))
    ensures EndsWith(d, s, DownloadMoves(d, s, call, hash, token, worlds, others),
                     Downloaded(d, s, call, hash, token, worlds, others))
  {
    var arrive := Move(Arrive(call, Download(hash), token), worlds.0);
    var (t, a) := AfterArrive(d, s, call, Download(hash), token, worlds.0);
    PlayFirst(d, s, arrive);
    if a == GoesOn {
      FinishingIsRun(d, t, call, Download(hash), worlds.1, others);
      EndsWithLater(d, s, [arrive], FinishingMoves(d, t, call, Download(hash), worlds.1, others),
                    Finished(d, t, call, Download(hash), worlds.1, others));
    } else {
      assert [arrive] + [] == [arrive];
    }
  }

  /** The moves of an upload that is let through, from there on. */
  function MeasuringMoves(d: Digest, s: State, call: nat, op: Op, w: World,
                          others: (seq<Move>, seq<Move>, seq<Move>)): seq<Move>
  {
    var (u, b) := AfterMeasure(Play(d, s, others.0).0, call);
    others.0 + ([Move(Measure(call), w)]
      + (if b != GoesOn then [] else FinishingMoves(d, u, call, op, w, (others.1, others.2))))
  }

  lemma MeasuringIsRun(d: Digest, s: State, call: nat, op: Op, w: World, others: (seq<Move>, seq<Move>, seq<Move>))
    ensures var (u, b) := AfterMeasure(Play(d, s, others.0).0, call);
      EndsWith(d, s, MeasuringMoves(d, s, call, op, w, others),
               if b != GoesOn then (u, b) else Finished(d, u, call, op, w, (others.1, others.2)))
  {
    var t, measure := Play(d, s, others.0).0, Move(Measure(call), w);
    var (u, b) := AfterMeasure(t, call);
    PlayFirst(d, t, measure);
    if b == GoesOn {
      var rest := FinishingMoves(d, u, call, op, w, (others.1, others.2));
      FinishingIsRun(d, u, call, op, w, (others.1, others.2));
      EndsWithLater(d, t, [measure], rest, Finished(d, u, call, op, w, (others.1, others.2)));
      EndsWithLater(d, s, others.0, [measure] + rest, Finished(d, u, call, op, w, (others.1, others.2)));
    } else {
      assert [measure] + [] == [measure];
      EndsWithLater(d, s, others.0, [measure] + [], (u, b));
    }
  }

  /** The moves of a whole upload and of the requests it is interleaved with. */
  function UploadMoves(d: Digest, s: State, call: nat, op: Op, token: string, worlds: (World, World),
                       others: (seq<Move>, seq<Move>, seq<Move>)): seq<Move>
  {
    var (t, a) := AfterArrive(d, s, call, op, token, worlds.0);
    [Move(Arrive(call, op, token), worlds.0)]
      + (if a != GoesOn then [] else MeasuringMoves(d, t, call, op, worlds.1, others))
  }

  /** So is an upload. */
  lemma UploadsAreRuns(d: Digest, s: State, call: nat, op: Op, token: string, worlds: (World, World),
                       others: (seq<Move>, seq<Move>, seq<Move>))
    ensures EndsWith(d, s, UploadMoves(d, s, call, op, token, worlds, others),
                     Uploaded(d, s, call, op, token, worlds, others))
  {
    var arrive := Move(Arrive(call, op, token), worlds.0);
    var (t, a) := AfterArrive(d, s, call, op, token, worlds.0);
    PlayFirst(d, s, arrive);
    if a == GoesOn {
      MeasuringIsRun(d, t, call, op, worlds.1, others);
      EndsWithLater(d, s, [arrive], MeasuringMoves(d, t, call, op, worlds.1, others),
                    Uploaded(d, s, call, op, token, worlds, others));
    } else {
      assert [arrive] + [] == [arrive];
    }
  }

  lemma FinishingAnswers(d: Digest, s: State, call: nat, op: Op, w: World, others: (seq<Move>, seq<Move>))
    requires call in s.flights && s.flights[call].Admitted? && s.flights[call].op == op
    requires Apart(call, others.0) && Apart(call, others.1)
    ensures Finished(d, s, call, op, w, others).1 !in {Nothing, GoesOn}
  {
    OthersKeepFlight(d, s, others.0, call);
    OthersKeepFlight(d, AfterHold(Play(d, s, others.0).0, call).0, others.1, call);
  }

  /** Nothing that other requests do keeps a handler from answering. */
  lemma HandlersAnswer(d: Digest, s: State, call: nat, op: Op, token: string, worlds: (World, World),
                       others: (seq<Move>, seq<Move>, seq<Move>))
    requires call !in s.flights && Apart(call, others.0) && Apart(call, others.1) && Apart(call, others.2)
    ensures op.Upload? ==> Uploaded(d, s, call, op, token, worlds, others).1 !in {Nothing, GoesOn}
    ensures op.Download? ==>
      Downloaded(d, s, call, op.hash, token, worlds, (others.1, others.2)).1 !in {Nothing, GoesOn}
  {
    var (t, a) := AfterArrive(d, s, call, op, token, worlds.0);
    if a == GoesOn && op.Download? {
      FinishingAnswers(d, t, call, op, worlds.1, (others.1, others.2));
    } else if a == GoesOn {
      OthersKeepFlight(d, t, others.0, call);
      var (u, b) := AfterMeasure(Play(d, t, others.0).0, call);
      if b == GoesOn { FinishingAnswers(d, u, call, op, worlds.1, (others.1, others.2)); }
    }
  }

  // ---------------------------------------------------------------- uploads, downloads, removals

  /** The answer says that the artifact of `hash` at `place` was stored or removed. */
  predicate Changed(r: Request, a: Answer, place: Place, hash: string) {
    || (r.Serve? && r.op.Upload? && r.op.hash == hash && r.place == place && a == Status(OK))
    || (r == DeleteEntry(place, hash) && a == Succeeded)
  }

  function Artifact(s: State, place: Place, hash: string): Option<Bytes> {
    if hash in At(s.stores, place) then Some(At(s.stores, place)[hash]) else None
  }

  /** What a change leaves. */
  function Left(r: Request): Option<Bytes> {
    if r.Serve? && r.op.Upload? && 0 <= r.op.length <= |r.op.body| then Some(r.op.body[..r.op.length]) else None
  }

  /** One request and the stores: only an upload answered 200 and a removal change them. */
  lemma OneRequest(d: Digest, s: State, r: Request, w: World, place: Place, hash: string)
    ensures var (t, a) := Next(d, s, r, w);
      if Changed(r, a, place, hash) then
        Artifact(t, place, hash) == Left(r)
        && (r.Serve? ==> Artifact(s, place, hash) == None && 0 <= r.op.length <= |r.op.body|)
        && (r.DeleteEntry? ==> Artifact(s, place, hash) != None)
      else Artifact(t, place, hash) == Artifact(s, place, hash)
  {
  }

  predicate LastChange(moves: seq<Move>, answers: seq<Answer>, place: Place, hash: string, j: int)
    requires |answers| == |moves|
  {
    && 0 <= j < |moves| && Changed(moves[j].request, answers[j], place, hash)
    && forall k :: j < k < |moves| ==> !Changed(moves[k].request, answers[k], place, hash)
  }

  lemma LastChangeStep(moves: seq<Move>, answers: seq<Answer>, place: Place, hash: string)
    requires |answers| == |moves| > 0
    ensures var n := |moves| - 1;
      if Changed(moves[n].request, answers[n], place, hash) then
        forall j :: LastChange(moves, answers, place, hash, j) <==> j == n
      else
        forall j :: LastChange(moves, answers, place, hash, j) <==> LastChange(moves[..n], answers[..n], place, hash, j)
  {
    var n := |moves| - 1;
    if !Changed(moves[n].request, answers[n], place, hash) {
      forall j
        ensures LastChange(moves, answers, place, hash, j) <==> LastChange(moves[..n], answers[..n], place, hash, j) {
        assert forall k :: 0 <= k < n ==> moves[k] == moves[..n][k] && answers[k] == answers[..n][k];
      }
    }
  }

  /** A change is followed by a last one. */
  lemma {:induction false} SomeLastChange(moves: seq<Move>, answers: seq<Answer>, place: Place, hash: string, j: nat)
    returns (last: nat)
    requires |answers| == |moves| && j < |moves| && Changed(moves[j].request, answers[j], place, hash)
    ensures j <= last && LastChange(moves, answers, place, hash, last)
  {
    var n := |moves| - 1;
    LastChangeStep(moves, answers, place, hash);
    if Changed(moves[n].request, answers[n], place, hash) {
      last := n;
    } else {
      last := SomeLastChange(moves[..n], answers[..n], place, hash, j);
    }
  }

  /** What `place` holds for `hash` after the run: what the last change there left, else what was
      there at the start. */
  ghost predicate Explained(before: Option<Bytes>, moves: seq<Move>, answers: seq<Answer>, place: Place, hash: string,
                            now: Option<Bytes>)
    requires |answers| == |moves|
  {
    && (forall j :: LastChange(moves, answers, place, hash, j) ==> now == Left(moves[j].request))
    && ((forall j :: !LastChange(moves, answers, place, hash, j)) ==> now == before)
  }

  lemma ExplainedStep(before: Option<Bytes>, moves: seq<Move>, answers: seq<Answer>, place: Place, hash: string,
                      then': Option<Bytes>, now: Option<Bytes>)
    requires |answers| == |moves| > 0
    requires Explained(before, moves[..|moves| - 1], answers[..|moves| - 1], place, hash, then')
    requires var n := |moves| - 1;
      now == if Changed(moves[n].request, answers[n], place, hash) then Left(moves[n].request) else then'
    ensures Explained(before, moves, answers, place, hash, now)
  {
    var n := |moves| - 1;
    LastChangeStep(moves, answers, place, hash);
    if Changed(moves[n].request, answers[n], place, hash) {
      assert LastChange(moves, answers, place, hash, n);
    } else {
      forall j | LastChange(moves, answers, place, hash, j) ensures now == Left(moves[j].request) {
        assert LastChange(moves[..n], answers[..n], place, hash, j);
      }
      if forall j :: !LastChange(moves, answers, place, hash, j) {
        assert forall j :: !LastChange(moves[..n], answers[..n], place, hash, j);
      }
    }
  }

  lemma {:induction false} StoreIsExplained(d: Digest, s: State, moves: seq<Move>, place: Place, hash: string)
    ensures var (t, answers) := Play(d, s, moves);
      Explained(Artifact(s, place, hash), moves, answers, place, hash, Artifact(t, place, hash))
  {
    if moves != [] {
      var n := |moves| - 1;
      StoreIsExplained(d, s, moves[..n], place, hash);
      var (t, past) := Play(d, s, moves[..n]);
      OneRequest(d, t, moves[n].request, moves[n].world, place, hash);
      var (u, answers) := Play(d, s, moves);
      assert answers[..n] == past;
      ExplainedStep(Artifact(s, place, hash), moves, answers, place, hash,
                    Artifact(t, place, hash), Artifact(u, place, hash));
    }
  }

  /** What the answer to a storage operation says about the place it met. */
  lemma AnswersTellTheTruth(d: Digest, s: State, r: Request, w: World)
    requires r.Serve?
    ensures var (t, a) := Next(d, s, r, w);
      && (a.Hit? ==> Artifact(s, r.place, r.op.hash) == Some(a.body))
      && (a == Status(NOT_FOUND) ==> Artifact(s, r.place, r.op.hash) == None)
      && (a == Status(CONFLICT) ==> Artifact(s, r.place, r.op.hash) != None)
      && (a != Status(OK) && !a.Hit? && a != Nothing ==> t == s.(flights := s.flights - {r.call}))
  {
  }

  /** Coherence of every run: a download answered 200 carries the body of the most recent upload
      answered 200 to the place it is served from, with no removal there since; and a 404 means
      that there is none. */
  lemma DownloadsAreCoherent(d: Digest, s: State, moves: seq<Move>, i: nat)
    requires i < |moves| && moves[i].request.Serve?
    ensures var (r, answers) := (moves[i].request, Play(d, s, moves).1);
      var before := Artifact(s, r.place, r.op.hash);
      && (answers[i].Hit? ==>
            Explained(before, moves[..i], answers[..i], r.place, r.op.hash, Some(answers[i].body)))
      && (answers[i] == Status(NOT_FOUND) ==> Explained(before, moves[..i], answers[..i], r.place, r.op.hash, None))
  {
    PlayPrefix(d, s, moves, i);
    StoreIsExplained(d, s, moves[..i], moves[i].request.place, moves[i].request.op.hash);
    AnswersTellTheTruth(d, Play(d, s, moves[..i]).0, moves[i].request, moves[i].world);
  }

  /** An upload answered 409 met an earlier upload that is still at its place, and like every
      refused upload it changes nothing. */
  lemma RefusedUploadsChangeNothing(d: Digest, s: State, moves: seq<Move>, i: nat)
    requires i < |moves| && moves[i].request.Serve? && moves[i].request.op.Upload?
    requires Play(d, s, moves).1[i] !in {Status(OK), Nothing}
    ensures var before, after := Play(d, s, moves[..i]).0, Play(d, s, moves[..i + 1]).0;
      after == before.(flights := before.flights - {moves[i].request.call})
    ensures var (r, answers) := (moves[i].request, Play(d, s, moves).1);
      answers[i] == Status(CONFLICT) ==>
        exists body ::
          Explained(Artifact(s, r.place, r.op.hash), moves[..i], answers[..i], r.place, r.op.hash, Some(body))
  {
    PlayPrefix(d, s, moves, i);
    PlayStep(d, s, moves, i);
    var before, r := Play(d, s, moves[..i]).0, moves[i].request;
    StoreIsExplained(d, s, moves[..i], r.place, r.op.hash);
    AnswersTellTheTruth(d, before, r, moves[i].world);
    UploadsAreNoHits(d, before, r, moves[i].world);
    if Play(d, s, moves).1[i] == Status(CONFLICT) {
      assert Artifact(before, r.place, r.op.hash) == Some(Artifact(before, r.place, r.op.hash).value);
    }
  }

  lemma UploadsAreNoHits(d: Digest, s: State, r: Request, w: World)
    requires r.Serve? && r.op.Upload?
    ensures !Next(d, s, r, w).1.Hit?
  {
  }

  /** A run explains at most one content. */
  lemma ExplainedOnce(before: Option<Bytes>, moves: seq<Move>, answers: seq<Answer>, place: Place, hash: string,
                      a: Option<Bytes>, b: Option<Bytes>)
    requires |answers| == |moves|
    requires Explained(before, moves, answers, place, hash, a) && Explained(before, moves, answers, place, hash, b)
    ensures a == b
  {
  }

  // ---------------------------------------------------------------- what each answer is, in every case

  /** A held download: the stored bytes, with a recording left pending, exactly if the storage works and
      has them; 404 exactly if it works and has none; and 500 exactly if it fails. */
  lemma HeldDownloadAnswer(d: Digest, s: State, call: nat, op: Op, place: Place, w: World)
    requires Holds(s, call, op, place) && op.Download?
    ensures var (t, a) := Next(d, s, Serve(call, op, place), w);
      && (a == Status(500) <==> w.storageFails)
      && (a == Status(404) <==> !w.storageFails && op.hash !in At(s.stores, place))
      && (a.Hit? <==> !w.storageFails && op.hash in At(s.stores, place))
      && (a.Hit? ==> a.body == At(s.stores, place)[op.hash] && t.pending == s.pending + multiset{op.hash})
      && (!a.Hit? ==> t.pending == s.pending)
      && t.stores == s.stores && t.flights == s.flights - {call}
  {
  }

  /** A held upload: 500 exactly if the storage fails or the body is cut short, 409 exactly if the hash is
      there, else 200, and then exactly the announced bytes are stored. */
  lemma HeldUploadAnswers(d: Digest, s: State, call: nat, op: Op, place: Place, w: World)
    requires Holds(s, call, op, place) && op.Upload? && op.length >= 0
    ensures var (t, a) := Next(d, s, Serve(call, op, place), w);
      && (a == Status(409) <==> !w.storageFails && op.hash in At(s.stores, place))
      && (a == Status(200) <==> !w.storageFails && op.hash !in At(s.stores, place) && op.length <= |op.body|)
      && (a == Status(500) <==>
            w.storageFails || (op.hash !in At(s.stores, place) && op.length > |op.body|))
      && (a == Status(200) ==> Artifact(t, place, op.hash) == Some(op.body[..op.length]))
  {
  }

  /** The check of the length: 411 without one, 413 above the limit, and else the upload goes on. */
  lemma MeasureAnswers(d: Digest, s: State, call: nat, w: World)
    requires call in s.flights && s.flights[call].Vouched? && s.flights[call].op.Upload?
    ensures var (a, length) := (Next(d, s, Measure(call), w).1, s.flights[call].op.length);
      && (a == Status(411) <==> length <= 0)
      && (a == Status(413) <==> 0 < length && s.maxEntryBytes < length)
      && (a == GoesOn <==> 0 < length <= s.maxEntryBytes)
  {
  }

  /** Downloads over a run: on a storage that works, what the history of the place explains is what is
      answered, the artifact or 404. */
  lemma DownloadsAnswerHistory(d: Digest, s: State, moves: seq<Move>, i: nat, now: Option<Bytes>)
    requires i < |moves| && moves[i].request.Serve? && moves[i].request.op.Download?
    requires Play(d, s, moves).1[i] != Nothing && !moves[i].world.storageFails
    requires var r := moves[i].request;
      Explained(Artifact(s, r.place, r.op.hash), moves[..i], Play(d, s, moves).1[..i], r.place, r.op.hash, now)
    ensures Play(d, s, moves).1[i] == if now.Some? then Hit(now.value) else Status(404)
  {
    var r, before := moves[i].request, Play(d, s, moves[..i]).0;
    PlayPrefix(d, s, moves, i);
    StoreIsExplained(d, s, moves[..i], r.place, r.op.hash);
    ExplainedOnce(Artifact(s, r.place, r.op.hash), moves[..i], Play(d, s, moves[..i]).1, r.place, r.op.hash,
                  now, Artifact(before, r.place, r.op.hash));
    ServeAnswered(d, before, r, moves[i].world);
    HeldDownloadAnswer(d, before, r.call, r.op, r.place, moves[i].world);
  }

  /** Uploads likewise: 409 exactly if the history of the place has the artifact, and else 200 exactly for
      a body as long as announced. */
  lemma UploadsAnswerHistory(d: Digest, s: State, moves: seq<Move>, i: nat, now: Option<Bytes>)
    requires i < |moves| && moves[i].request.Serve? && moves[i].request.op.Upload? && moves[i].request.op.length >= 0
    requires Play(d, s, moves).1[i] != Nothing && !moves[i].world.storageFails
    requires var r := moves[i].request;
      Explained(Artifact(s, r.place, r.op.hash), moves[..i], Play(d, s, moves).1[..i], r.place, r.op.hash, now)
    ensures var op := moves[i].request.op;
      Play(d, s, moves).1[i] ==
        Status(if now.Some? then 409 else if op.length <= |op.body| then 200 else 500)
  {
    var r, before := moves[i].request, Play(d, s, moves[..i]).0;
    PlayPrefix(d, s, moves, i);
    StoreIsExplained(d, s, moves[..i], r.place, r.op.hash);
    ExplainedOnce(Artifact(s, r.place, r.op.hash), moves[..i], Play(d, s, moves[..i]).1, r.place, r.op.hash,
                  now, Artifact(before, r.place, r.op.hash));
    ServeAnswered(d, before, r, moves[i].world);
    HeldUploadAnswers(d, before, r.call, r.op, r.place, moves[i].world);
  }

  lemma ServeAnswered(d: Digest, s: State, r: Request, w: World)
    requires r.Serve? && Next(d, s, r, w).1 != Nothing
    ensures Holds(s, r.call, r.op, r.place)
  {
  }

  /** So are removals: one works exactly if the storage does and the history has the artifact. */
  lemma RemovalsAnswerHistory(d: Digest, s: State, moves: seq<Move>, i: nat, now: Option<Bytes>)
    requires i < |moves| && moves[i].request.DeleteEntry?
    requires var r := moves[i].request;
      Explained(Artifact(s, r.place, r.hash), moves[..i], Play(d, s, moves).1[..i], r.place, r.hash, now)
    ensures Play(d, s, moves).1[i] ==
      if moves[i].world.storageFails then Errored else if now.Some? then Succeeded else Status(404)
  {
    var r, before := moves[i].request, Play(d, s, moves[..i]).0;
    PlayPrefix(d, s, moves, i);
    StoreIsExplained(d, s, moves[..i], r.place, r.hash);
    ExplainedOnce(Artifact(s, r.place, r.hash), moves[..i], Play(d, s, moves[..i]).1, r.place, r.hash,
                  now, Artifact(before, r.place, r.hash));
    RemovalAnswer(before, r.place, r.hash, moves[i].world);
  }

  lemma RemovalAnswer(s: State, place: Place, hash: string, w: World)
    ensures AfterDelete(s, place, hash, w).1 ==
      if w.storageFails then Errored else if Artifact(s, place, hash).Some? then Succeeded else Status(NOT_FOUND)
  {
  }

  /** A download alone, with an active token: the stored bytes and a pending recording, or 404. */
  lemma DownloadAlone(d: Digest, s: State, call: nat, hash: string, token: string, w: World)
    requires call !in s.flights && ValidHash(hash) && !w.dbFails && !w.storageFails
    requires token != "" && Active(s.tokens, d.of(token))
    ensures var (t, a) := Downloaded(d, s, call, hash, token, (w, w), ([], []));
      if hash in At(s.stores, s.live) then
        a == Hit(At(s.stores, s.live)[hash]) && t.pending == s.pending + multiset{hash}
      else a == Status(404) && t.pending == s.pending
  {
    var t := AfterArrive(d, s, call, Download(hash), token, w).0;
    var u := AfterHold(t, call).0;
    HeldDownloadAnswer(d, u, call, Download(hash), s.live, w);
  }

  /** An upload alone, with an active write token, a length within the limit, and its whole body: 200 for
      a new hash, 409 for a stored one. */
  lemma UploadAlone(d: Digest, s: State, call: nat, op: Op, token: string, w: World)
    requires call !in s.flights && ValidHash(op.hash) && !w.dbFails && !w.storageFails
    requires token != "" && Active(s.tokens, d.of(token)) && s.tokens.rows[d.of(token)].scope == Write
    requires op.Upload? && 0 < op.length <= s.maxEntryBytes && op.length <= |op.body|
    ensures var (t, a) := Uploaded(d, s, call, op, token, (w, w), ([], [], []));
      if op.hash in At(s.stores, s.live) then a == Status(409) && t.stores == s.stores
      else a == Status(200) && Artifact(t, s.live, op.hash) == Some(op.body[..op.length])
  {
    var t := AfterArrive(d, s, call, op, token, w).0;
    var u := AfterMeasure(t, call).0;
    var v := AfterHold(u, call).0;
    HeldUploadAnswers(d, v, call, op, s.live, w);
  }

  // ---------------------------------------------------------------- moving the storage

  /** The place in use before request `k`: the last one swapped in, else the initial one. */
  function PlaceAt(initial: Place, moves: seq<Move>, k: nat): Place
    requires k <= |moves|
  {
    if k == 0 then initial
    else if moves[k - 1].request.SwapBackend? then moves[k - 1].request.place
    else PlaceAt(initial, moves, k - 1)
  }

  lemma {:induction false} PlaceInPrefix(initial: Place, moves: seq<Move>, n: nat, k: nat)
    requires k <= n <= |moves|
    ensures PlaceAt(initial, moves[..n], k) == PlaceAt(initial, moves, k)
  {
    if k > 0 {
      PlaceInPrefix(initial, moves, n, k - 1);
    }
  }

  lemma {:induction false} PlaceInUse(d: Digest, s: State, moves: seq<Move>)
    ensures Play(d, s, moves).0.live == PlaceAt(s.live, moves, |moves|)
  {
    if moves != [] {
      var n := |moves| - 1;
      PlaceInUse(d, s, moves[..n]);
      PlaceInPrefix(s.live, moves, n, n);
      LastPlace(d, s, moves);
    }
  }

  lemma LastPlace(d: Digest, s: State, moves: seq<Move>)
    requires moves != []
    ensures var n := |moves| - 1;
      Play(d, s, moves).0.live ==
        if moves[n].request.SwapBackend? then moves[n].request.place else Play(d, s, moves[..n]).0.live
  {
    var n := |moves| - 1;
    OnePlace(d, Play(d, s, moves[..n]).0, moves[n]);
  }

  lemma OnePlace(d: Digest, s: State, m: Move)
    ensures Next(d, s, m.request, m.world).0.live == if m.request.SwapBackend? then m.request.place else s.live
  {
  }

  predicate LetThrough(moves: seq<Move>, answers: seq<Answer>, k: int, call: nat, op: Op, token: string)
    requires |answers| == |moves|
  {
    0 <= k < |moves| && moves[k].request == Arrive(call, op, token) && answers[k] == GoesOn
  }

  predicate MeasuredAt(moves: seq<Move>, answers: seq<Answer>, j: int, call: nat)
    requires |answers| == |moves|
  {
    0 <= j < |moves| && moves[j].request == Measure(call) && answers[j] == GoesOn
  }

  predicate TookHold(initial: Place, moves: seq<Move>, answers: seq<Answer>, h: int, call: nat, place: Place)
    requires |answers| == |moves|
  {
    0 <= h < |moves| && moves[h].request == Hold(call) && answers[h] == Succeeded && PlaceAt(initial, moves, h) == place
  }

  predicate EndsFlight(r: Request, a: Answer, call: nat) {
    (r.Serve? && r.call == call && a != Nothing) || (r == Measure(call) && a.Status?)
  }

  /** The way of a flight, since its call id was last taken up: let through at `k`, if it is an
      upload measured at `j`, and holding its place since `h`. */
  predicate Trail(initial: Place, moves: seq<Move>, answers: seq<Answer>, call: nat, f: Flight, k: int, j: int, h: int)
    requires |answers| == |moves|
  {
    && LetThrough(moves, answers, k, call, f.op, f.token)
    && (forall i :: k < i < |moves| ==> !EndsFlight(moves[i].request, answers[i], call))
    && (f.op.Upload? && !f.Vouched? ==> k < j && MeasuredAt(moves, answers, j, call))
    && (f.Holding? ==> k < h && (f.op.Upload? ==> j < h) && TookHold(initial, moves, answers, h, call, f.place))
  }

  lemma FlightStep(d: Digest, s: State, m: Move, call: nat)
    ensures var (t, a) := Next(d, s, m.request, m.world);
      call in t.flights ==>
        var f := t.flights[call];
        || (call in s.flights && f == s.flights[call] && !EndsFlight(m.request, a, call))
        || (m.request == Arrive(call, f.op, f.token) && a == GoesOn
            && !f.Holding? && (f.op.Upload? ==> f.Vouched?))
        || (m.request == Measure(call) && a == GoesOn && call in s.flights
            && s.flights[call] == Vouched(f.op, f.token) && f == Admitted(f.op, f.token))
        || (m.request == Hold(call) && a == Succeeded && call in s.flights
            && s.flights[call] == Admitted(f.op, f.token) && f == Holding(f.op, f.token, s.live))
  {
  }

  /** One more move: the flight stays, begins, is measured, or takes hold. */
  lemma TrailStep(initial: Place, moves: seq<Move>, answers: seq<Answer>, call: nat, e: Flight, f: Flight,
                  k: int, j: int, h: int, live: Place)
    requires |answers| == |moves| > 0
    requires var n := |moves| - 1;
      && Trail(initial, moves[..n], answers[..n], call, e, k, j, h) && PlaceAt(initial, moves, n) == live
      && !EndsFlight(moves[n].request, answers[n], call)
      && (f == e
          || (MeasuredAt(moves, answers, n, call) && e.Vouched? && f == Admitted(e.op, e.token))
          || (moves[n].request == Hold(call) && answers[n] == Succeeded && e.Admitted?
              && f == Holding(e.op, e.token, live)))
    ensures var n := |moves| - 1;
      if f == e then Trail(initial, moves, answers, call, f, k, j, h)
      else if f.Admitted? then Trail(initial, moves, answers, call, f, k, n, h)
      else Trail(initial, moves, answers, call, f, k, j, n)
  {
    var n := |moves| - 1;
    assert forall i :: 0 <= i < n ==> moves[i] == moves[..n][i] && answers[i] == answers[..n][i];
    if 0 <= h < n { PlaceInPrefix(initial, moves, n, h); }
  }

  lemma {:induction false} FlightsAreExplained(d: Digest, s: State, moves: seq<Move>, call: nat)
    requires s.flights == map[]
    ensures var (t, answers) := Play(d, s, moves);
      call in t.flights ==> exists k, j, h :: Trail(s.live, moves, answers, call, t.flights[call], k, j, h)
  {
    if moves != [] {
      var n := |moves| - 1;
      FlightsAreExplained(d, s, moves[..n], call);
      var (t, past) := Play(d, s, moves[..n]);
      var (u, answers) := Play(d, s, moves);
      assert answers[..n] == past;
      if call in u.flights {
        FlightStep(d, t, moves[n], call);
        PlaceInUse(d, s, moves[..n]);
        PlaceInPrefix(s.live, moves, n, n);
        FlightGoesOn(d, s.live, moves, answers, t, u.flights[call], call);
      }
    }
  }

  lemma FlightGoesOn(d: Digest, initial: Place, moves: seq<Move>, answers: seq<Answer>, t: State, f: Flight, call: nat)
    requires |answers| == |moves| > 0
    requires var n := |moves| - 1;
      && (call in t.flights ==>
            exists k, j, h :: Trail(initial, moves[..n], answers[..n], call, t.flights[call], k, j, h))
      && PlaceAt(initial, moves, n) == t.live
      && (var r, a := moves[n].request, answers[n];
          || (call in t.flights && f == t.flights[call] && !EndsFlight(r, a, call))
          || (r == Arrive(call, f.op, f.token) && a == GoesOn && !f.Holding? && (f.op.Upload? ==> f.Vouched?))
          || (r == Measure(call) && a == GoesOn && call in t.flights
              && t.flights[call] == Vouched(f.op, f.token) && f == Admitted(f.op, f.token))
          || (r == Hold(call) && a == Succeeded && call in t.flights
              && t.flights[call] == Admitted(f.op, f.token) && f == Holding(f.op, f.token, t.live)))
    ensures exists k, j, h :: Trail(initial, moves, answers, call, f, k, j, h)
  {
    var n := |moves| - 1;
    if moves[n].request == Arrive(call, f.op, f.token) && answers[n] == GoesOn && !f.Holding?
       && (f.op.Upload? ==> f.Vouched?) {
      assert Trail(initial, moves, answers, call, f, n, n, n);
    } else {
      var e := t.flights[call];
      var k, j, h :| Trail(initial, moves[..n], answers[..n], call, e, k, j, h);
      TrailStep(initial, moves, answers, call, e, f, k, j, h, t.live);
    }
  }

  /** Every operation on the storage was let through earlier and, if an upload, measured after that,
      and runs on the place that was in use when its request then took hold. */
  lemma ServedFromHeldPlace(d: Digest, s: State, moves: seq<Move>, i: nat)
    returns (token: string, k: nat, j: int, h: nat)
    requires s.flights == map[] && i < |moves| && moves[i].request.Serve? && Play(d, s, moves).1[i] != Nothing
    ensures k < i && h < i
    ensures var r := moves[i].request;
      Trail(s.live, moves[..i], Play(d, s, moves).1[..i], r.call, Holding(r.op, token, r.place), k, j, h)
  {
    var r, answers := moves[i].request, Play(d, s, moves).1;
    PlayPrefix(d, s, moves, i);
    FlightsAreExplained(d, s, moves[..i], r.call);
    var t := Play(d, s, moves[..i]).0;
    ServeNeedsFlight(d, t, r, moves[i].world);
    token := t.flights[r.call].token;
    k, j, h :| Trail(s.live, moves[..i], answers[..i], r.call, t.flights[r.call], k, j, h);
  }

  lemma ServeNeedsFlight(d: Digest, s: State, r: Request, w: World)
    requires r.Serve? && Next(d, s, r, w).1 != Nothing
    ensures r.call in s.flights && s.flights[r.call] == Holding(r.op, s.flights[r.call].token, r.place)
  {
  }

  /** `hash` is not removed from `place` after request `j`. */
  predicate NoRemoval(moves: seq<Move>, answers: seq<Answer>, place: Place, hash: string, j: nat)
    requires |answers| == |moves|
  {
    forall k :: j < k < |moves| ==> !(moves[k].request == DeleteEntry(place, hash) && answers[k] == Succeeded)
  }

  /** When a download misses an artifact that was uploaded and not removed since: exactly when the
      storage has been moved, to a place whose own history does not have the artifact. */
  lemma MissAfterUpload(d: Digest, s: State, moves: seq<Move>, j: nat, i: nat)
    requires j < i < |moves| && moves[j].request.Serve? && moves[i].request.Serve?
    requires moves[j].request.op.Upload? && moves[i].request.op == Download(moves[j].request.op.hash)
    requires Play(d, s, moves).1[j] == Status(OK)
    requires Play(d, s, moves).1[i].Hit? || Play(d, s, moves).1[i] == Status(NOT_FOUND)
    requires NoRemoval(moves[..i], Play(d, s, moves).1[..i], moves[j].request.place, moves[j].request.op.hash, j)
    ensures var (r, past) := (moves[i].request, Play(d, s, moves).1[..i]);
      Play(d, s, moves).1[i] == Status(NOT_FOUND) <==>
        r.place != moves[j].request.place
        && Explained(Artifact(s, r.place, r.op.hash), moves[..i], past, r.place, r.op.hash, None)
  {
    var r, answers := moves[i].request, Play(d, s, moves).1;
    DownloadsAreCoherent(d, s, moves, i);
    if r.place == moves[j].request.place {
      UploadStays(d, s, moves, j, i);
    } else if answers[i].Hit? {
      var before := Artifact(s, r.place, r.op.hash);
      if Explained(before, moves[..i], answers[..i], r.place, r.op.hash, None) {
        ExplainedOnce(before, moves[..i], answers[..i], r.place, r.op.hash, None, Some(answers[i].body));
        assert false;
      }
    }
  }

  lemma UploadStays(d: Digest, s: State, moves: seq<Move>, j: nat, i: nat)
    requires j < i < |moves| && moves[j].request.Serve? && moves[j].request.op.Upload?
    requires Play(d, s, moves).1[j] == Status(OK)
    requires NoRemoval(moves[..i], Play(d, s, moves).1[..i], moves[j].request.place, moves[j].request.op.hash, j)
    ensures var r := moves[j].request;
      !Explained(Artifact(s, r.place, r.op.hash), moves[..i], Play(d, s, moves).1[..i], r.place, r.op.hash, None)
  {
    var r, answers := moves[j].request, Play(d, s, moves).1;
    var last := SomeLastChange(moves[..i], answers[..i], r.place, r.op.hash, j);
    assert moves[..i][last] == moves[last] && answers[..i][last] == answers[last];
    PlayPrefix(d, s, moves, last);
    OneRequest(d, Play(d, s, moves[..last]).0, moves[last].request, moves[last].world, r.place, r.op.hash);
    assert Left(moves[last].request) != None;
  }

  lemma PlayFour(d: Digest, s: State, k: Move, l: Move, m: Move, n: Move)
    ensures var t := Next(d, s, k.request, k.world);
      var u := Next(d, t.0, l.request, l.world);
      var v := Next(d, u.0, m.request, m.world);
      var x := Next(d, v.0, n.request, n.world);
      Play(d, s, [k, l, m, n]).0 == x.0 && Play(d, s, [k, l, m, n]).1 == [t.1, u.1, v.1, x.1]
  {
    PlayFirst(d, s, k);
    PlayOne(d, s, [k], l);
    assert [k] + [l] == [k, l];
    PlayOne(d, s, [k, l], m);
    assert [k, l] + [m] == [k, l, m];
    PlayOne(d, s, [k, l, m], n);
    assert [k, l, m] + [n] == [k, l, m, n];
  }

  const SMALL_UPLOAD := Upload("abc", 1, [7])

  /** The token may write now, and the limit lets the small upload pass. */
  predicate CanUpload(d: Digest, s: State, raw: string) {
    && s.flights == map[] && s.stores == map[] && s.maxEntryBytes >= 1
    && raw != "" && Active(s.tokens, d.of(raw)) && s.tokens.rows[d.of(raw)].scope == Write
  }

  lemma UploadIsHeld(d: Digest, s: State, raw: string, w: World)
    requires CanUpload(d, s, raw) && !w.dbFails
    ensures var t := AfterArrive(d, s, 1, SMALL_UPLOAD, raw, w);
      var u := AfterMeasure(t.0, 1);
      var v := AfterHold(u.0, 1);
      && t.1 == GoesOn && u.1 == GoesOn && v.1 == Succeeded
      && v.0 == s.(tokens := Used(s.tokens, d.of(raw), w.now), flights := map[1 := Holding(SMALL_UPLOAD, raw, s.live)])
  {
    assert ValidHash("abc");
  }

  function SmallUploadMoves(s: State, raw: string, w: World): seq<Move> {
    [Move(Arrive(1, SMALL_UPLOAD, raw), w), Move(Measure(1), w), Move(Hold(1), w),
     Move(Serve(1, SMALL_UPLOAD, s.live), w)]
  }

  lemma SmallUploadRuns(d: Digest, s: State, raw: string, w: World)
    requires CanUpload(d, s, raw) && !w.dbFails && !w.storageFails
    ensures var (t, answers) := Play(d, s, SmallUploadMoves(s, raw, w));
      && answers == [GoesOn, GoesOn, Succeeded, Status(OK)] && t.flights == map[]
      && Active(t.tokens, d.of(raw)) && forall place :: place != s.live ==> At(t.stores, place) == map[]
  {
    var moves := SmallUploadMoves(s, raw, w);
    UploadIsHeld(d, s, raw, w);
    PlayFour(d, s, moves[0], moves[1], moves[2], moves[3]);
    SmallUploadIsStored(d, s.(tokens := Used(s.tokens, d.of(raw), w.now)), raw, w);
  }

  /** A download during which the storage is moved. */
  function MovedDownloadMoves(raw: string, place: Place, w: World): seq<Move> {
    [Move(Arrive(2, Download("abc"), raw), w), Move(SwapBackend(place), w), Move(Hold(2), w),
     Move(Serve(2, Download("abc"), place), w)]
  }

  lemma MovedDownloadRuns(d: Digest, s: State, raw: string, place: Place, w: World)
    requires s.flights == map[] && At(s.stores, place) == map[] && !w.dbFails && !w.storageFails
    requires raw != "" && Active(s.tokens, d.of(raw))
    ensures Play(d, s, MovedDownloadMoves(raw, place, w)).1 == [GoesOn, Succeeded, Succeeded, Status(NOT_FOUND)]
  {
    var moves := MovedDownloadMoves(raw, place, w);
    DownloadMisses(d, s, raw, place, w);
    PlayFour(d, s, moves[0], moves[1], moves[2], moves[3]);
  }

  /** It does happen: an upload answered 200, then a download during which a settings update moves
      the storage to an empty place, answered 404, with no removal anywhere. */
  lemma MovedStorageMisses(d: Digest, s: State, raw: string, place: Place, w: World)
    requires CanUpload(d, s, raw) && place != s.live && !w.dbFails && !w.storageFails
    ensures Play(d, s, SmallUploadMoves(s, raw, w) + MovedDownloadMoves(raw, place, w)).1
      == [GoesOn, GoesOn, Succeeded, Status(OK), GoesOn, Succeeded, Succeeded, Status(NOT_FOUND)]
  {
    SmallUploadRuns(d, s, raw, w);
    MovedDownloadRuns(d, Play(d, s, SmallUploadMoves(s, raw, w)).0, raw, place, w);
    PlayConcat(d, s, SmallUploadMoves(s, raw, w), MovedDownloadMoves(raw, place, w));
  }

  lemma SmallUploadIsStored(d: Digest, s: State, raw: string, w: World)
    requires s.stores == map[] && !w.storageFails
    ensures var (t, a) := Next(d, s.(flights := map[1 := Holding(SMALL_UPLOAD, raw, s.live)]),
                               Serve(1, SMALL_UPLOAD, s.live), w);
      && a == Status(OK) && t.flights == map[] && t.tokens == s.tokens
      && forall place :: place != s.live ==> At(t.stores, place) == map[]
  {
  }

  lemma DownloadMisses(d: Digest, s: State, raw: string, place: Place, w: World)
    requires s.flights == map[] && "abc" !in At(s.stores, place) && !w.dbFails && !w.storageFails
    requires raw != "" && Active(s.tokens, d.of(raw))
    ensures var t := Next(d, s, Arrive(2, Download("abc"), raw), w);
      var u := Next(d, t.0, SwapBackend(place), w);
      var v := Next(d, u.0, Hold(2), w);
      && t.1 == GoesOn && u.1 == Succeeded && v.1 == Succeeded
      && Next(d, v.0, Serve(2, Download("abc"), place), w).1 == Status(NOT_FOUND)
  {
    assert ValidHash("abc");
  }
}
