/** What tokens allow over whole runs: who is let through, and what is stored in their name. */
module TokenRuns {
  import opened Wrappers
  import opened Names
  import opened Tokens
  import opened Server
  import opened ServerRuns

  // ---------------------------------------------------------------- the table over a run

  lemma OneStatement(d: Digest, s: State, r: Request, w: World)
    ensures var t := Next(d, s, r, w).0.tokens;
      || t == s.tokens
      || (r.CreateToken? && t == Inserted(s.tokens, r.scope, d.of(r.raw)))
      || (r.RevokeToken? && t == Revoked(s.tokens, r.id, w.now))
      || (r.Arrive? && t == Used(s.tokens, d.of(r.token), w.now))
  {
  }

  lemma OneRequestGrows(d: Digest, s: State, r: Request, w: World)
    requires Sound(s.tokens)
    ensures Sound(Next(d, s, r, w).0.tokens) && Grown(s.tokens, Next(d, s, r, w).0.tokens)
  {
    OneStatement(d, s, r, w);
    var t := Next(d, s, r, w).0.tokens;
    if t != s.tokens {
      if r.CreateToken? {
        InsertKeeps(s.tokens, r.scope, d.of(r.raw));
      } else if r.RevokeToken? {
        RevokeKeeps(s.tokens, r.id, w.now);
      } else {
        UseKeeps(s.tokens, d.of(r.token), w.now);
      }
    }
  }

  lemma GrownTransitive(a: Table, b: Table, c: Table)
    requires Grown(a, b) && Grown(b, c)
    ensures Grown(a, c)
  {
    forall x | x in a.rows ensures RowKept(a, c, x) {
      assert RowKept(a, b, x) && RowKept(b, c, x);
    }
  }

  lemma {:induction false} RunKeepsSound(d: Digest, s: State, moves: seq<Move>)
    requires Sound(s.tokens)
    ensures Sound(Play(d, s, moves).0.tokens)
  {
    if moves != [] {
      RunKeepsSound(d, s, moves[..|moves| - 1]);
      LastGrows(d, s, moves);
    }
  }

  lemma {:induction false} RunGrows(d: Digest, s: State, moves: seq<Move>, i: nat)
    requires Sound(s.tokens) && i <= |moves|
    ensures Sound(Play(d, s, moves).0.tokens)
    ensures Grown(Play(d, s, moves[..i]).0.tokens, Play(d, s, moves).0.tokens)
  {
    RunKeepsSound(d, s, moves);
    if i == |moves| {
      assert moves[..i] == moves;
    } else {
      var n := |moves| - 1;
      RunGrows(d, s, moves[..n], i);
      LastGrows(d, s, moves);
      TakeTwice(moves, n, i);
      GrownTransitive(Play(d, s, moves[..i]).0.tokens, Play(d, s, moves[..n]).0.tokens, Play(d, s, moves).0.tokens);
    }
  }

  lemma LastGrows(d: Digest, s: State, moves: seq<Move>)
    requires moves != [] && Sound(Play(d, s, moves[..|moves| - 1]).0.tokens)
    ensures Sound(Play(d, s, moves).0.tokens)
    ensures Grown(Play(d, s, moves[..|moves| - 1]).0.tokens, Play(d, s, moves).0.tokens)
  {
    var n := |moves| - 1;
    OneRequestGrows(d, Play(d, s, moves[..n]).0, moves[n].request, moves[n].world);
  }

  /** Once a token is revoked, every request that arrives later with it and names a valid hash is
      answered 401, or 500 when the tokens cannot be looked up. */
  lemma RevokedForever(d: Digest, s: State, moves: seq<Move>, i: nat, k: nat)
    requires Sound(s.tokens) && i <= k < |moves| && moves[k].request.Arrive?
    requires ValidHash(moves[k].request.op.hash) && moves[k].request.call !in Play(d, s, moves[..k]).0.flights
    requires var raw := moves[k].request.token;
      raw != "" && d.of(raw) in Play(d, s, moves[..i]).0.tokens.rows
      && Play(d, s, moves[..i]).0.tokens.rows[d.of(raw)].revokedAt.Some?
    ensures Play(d, s, moves).1[k] == Status(if moves[k].world.dbFails then SERVER_ERROR else UNAUTHORIZED)
  {
    PlayPrefix(d, s, moves, k);
    RunGrows(d, s, moves[..k], i);
    assert moves[..k][..i] == moves[..i];
    assert RowKept(Play(d, s, moves[..i]).0.tokens, Play(d, s, moves[..k]).0.tokens, d.of(moves[k].request.token));
  }

  /** Without the right to write: no token, an unknown one, or one issued for reading. */
  predicate CannotWrite(d: Digest, t: Table, raw: string) {
    raw == "" || d.of(raw) !in t.rows || t.rows[d.of(raw)].scope == Read
  }

  lemma UploadNeedsWriteToken(d: Digest, s: State, r: Request, w: World)
    requires r.Arrive? && r.op.Upload? && CannotWrite(d, s.tokens, r.token) && r.call !in s.flights
    ensures Next(d, s, r, w).0 == s.(tokens := Next(d, s, r, w).0.tokens)
    ensures Next(d, s, r, w).1 in {Status(BAD_REQUEST), Status(UNAUTHORIZED), Status(FORBIDDEN), Status(SERVER_ERROR)}
  {
  }

  lemma CannotWriteBefore(d: Digest, t: Table, u: Table, raw: string)
    requires Grown(t, u) && CannotWrite(d, u, raw)
    ensures CannotWrite(d, t, raw)
  {
    if d.of(raw) in t.rows {
      assert RowKept(t, u, d.of(raw));
    }
  }

  ghost predicate OnlyReadTokens(d: Digest, t: Table, moves: seq<Move>) {
    forall m :: m in moves ==>
      !m.request.DeleteEntry? && (m.request.Arrive? && m.request.op.Upload? ==> CannotWrite(d, t, m.request.token))
  }

  predicate NoUploads(s: State) {
    forall call :: call in s.flights ==> !s.flights[call].op.Upload?
  }

  lemma OneReadOnlyServe(d: Digest, s: State, m: Move)
    requires NoUploads(s) && m.request.Serve?
    ensures var t := Next(d, s, m.request, m.world).0; t.stores == s.stores && NoUploads(t)
  {
  }

  lemma OneReadOnlyArrival(d: Digest, s: State, m: Move)
    requires NoUploads(s) && m.request.Arrive?
    requires m.request.op.Upload? ==> CannotWrite(d, s.tokens, m.request.token)
    ensures var t := Next(d, s, m.request, m.world).0; t.stores == s.stores && NoUploads(t)
  {
    if m.request.op.Upload? && m.request.call !in s.flights {
      UploadNeedsWriteToken(d, s, m.request, m.world);
    }
  }

  lemma OneReadOnlyRequest(d: Digest, s: State, m: Move)
    requires NoUploads(s) && !m.request.DeleteEntry?
    requires m.request.Arrive? && m.request.op.Upload? ==> CannotWrite(d, s.tokens, m.request.token)
    ensures var t := Next(d, s, m.request, m.world).0; t.stores == s.stores && NoUploads(t)
  {
    if m.request.Serve? {
      OneReadOnlyServe(d, s, m);
    } else if m.request.Arrive? {
      OneReadOnlyArrival(d, s, m);
    }
  }

  /** A run whose uploads all bear read tokens, and in which nothing is removed, leaves every store
      as it was. */
  lemma {:induction false} ReadTokensLeaveStores(d: Digest, s: State, moves: seq<Move>)
    requires Sound(s.tokens) && NoUploads(s) && OnlyReadTokens(d, Play(d, s, moves).0.tokens, moves)
    ensures Play(d, s, moves).0.stores == s.stores && NoUploads(Play(d, s, moves).0)
  {
    if moves != [] {
      var n := |moves| - 1;
      var before, after := Play(d, s, moves[..n]).0, Play(d, s, moves).0;
      RunGrows(d, s, moves, n);
      forall m | m in moves && m.request.Arrive? && m.request.op.Upload?
        ensures CannotWrite(d, before.tokens, m.request.token) {
        CannotWriteBefore(d, before.tokens, after.tokens, m.request.token);
      }
      ReadTokensLeaveStores(d, s, moves[..n]);
      OneReadOnlyRequest(d, before, moves[n]);
    }
  }

  // ---------------------------------------------------------------- tokens, from the history alone

  /** The id and scope under which the run issued a raw token, if it did. */
  function IssueOf(moves: seq<Move>, answers: seq<Answer>, raw: string): Option<(nat, Scope)>
    requires |answers| == |moves|
  {
    if moves == [] then None
    else
      var n := |moves| - 1;
      var r := moves[n].request;
      if r.CreateToken? && r.raw == raw && answers[n].Issued? then Some((answers[n].id, r.scope))
      else IssueOf(moves[..n], answers[..n], raw)
  }

  predicate WasRevoked(moves: seq<Move>, answers: seq<Answer>, id: nat)
    requires |answers| == |moves|
  {
    exists k :: 0 <= k < |moves| && moves[k].request == RevokeToken(id) && answers[k] == Succeeded
  }

  lemma WasRevokedStep(moves: seq<Move>, answers: seq<Answer>, id: nat)
    requires |answers| == |moves| > 0
    ensures var n := |moves| - 1;
      WasRevoked(moves, answers, id) <==>
        WasRevoked(moves[..n], answers[..n], id) || (moves[n].request == RevokeToken(id) && answers[n] == Succeeded)
  {
    var n := |moves| - 1;
    if k :| 0 <= k < n && moves[k].request == RevokeToken(id) && answers[k] == Succeeded {
      assert moves[..n][k].request == RevokeToken(id) && answers[..n][k] == Succeeded;
    }
  }

  /** The row of a raw token tells when it was issued and whether it has been revoked. */
  predicate RowMeans(d: Digest, t: Table, raw: string, issue: Option<(nat, Scope)>, revoked: bool) {
    if d.of(raw) in t.rows then
      var row := t.rows[d.of(raw)];
      issue == Some((row.id, row.scope)) && (revoked <==> row.revokedAt.Some?)
    else issue == None
  }

  lemma RowStep(d: Digest, s: State, r: Request, w: World, raw: string, issue: Option<(nat, Scope)>, revoked: bool)
    requires Injective(d) && RowMeans(d, s.tokens, raw, issue, revoked)
    ensures var (t, a) := Next(d, s, r, w);
      if r.CreateToken? && r.raw == raw && a.Issued? then
        RowMeans(d, t.tokens, raw, Some((a.id, r.scope)), false) && a.id == s.tokens.nextId
      else
        RowMeans(d, t.tokens, raw, issue, revoked || (issue.Some? && r == RevokeToken(issue.value.0) && a == Succeeded))
  {
  }

  lemma IdsStep(d: Digest, s: State, r: Request, w: World)
    requires Sound(s.tokens)
    ensures s.tokens.nextId <= Next(d, s, r, w).0.tokens.nextId
    ensures r.RevokeToken? && Next(d, s, r, w).1 == Succeeded ==> r.id < s.tokens.nextId
  {
  }

  lemma {:induction false} RevokedIdsAreOld(d: Digest, s: State, moves: seq<Move>, id: nat)
    requires Sound(s.tokens)
    ensures var (t, answers) := Play(d, s, moves); WasRevoked(moves, answers, id) ==> id < t.tokens.nextId
  {
    if moves != [] {
      var n := |moves| - 1;
      var (t, answers) := Play(d, s, moves[..n]);
      RevokedIdsAreOld(d, s, moves[..n], id);
      RunGrows(d, s, moves[..n], 0);
      IdsStep(d, t, moves[n].request, moves[n].world);
      WasRevokedStep(moves, Play(d, s, moves).1, id);
      assert Play(d, s, moves).1[..n] == answers;
    }
  }

  /** The table says of every raw token what the history says. */
  lemma {:induction false} TokenHistory(d: Digest, s: State, moves: seq<Move>, raw: string)
    requires Injective(d) && s.tokens.rows == map[]
    ensures var (t, answers) := Play(d, s, moves);
      var issue := IssueOf(moves, answers, raw);
      RowMeans(d, t.tokens, raw, issue, issue.Some? && WasRevoked(moves, answers, issue.value.0))
  {
    if moves != [] {
      var n := |moves| - 1;
      TokenHistory(d, s, moves[..n], raw);
      var (t, answers) := Play(d, s, moves[..n]);
      var all := Play(d, s, moves).1;
      assert all[..n] == answers;
      var issue := IssueOf(moves[..n], answers, raw);
      RowStep(d, t, moves[n].request, moves[n].world, raw, issue,
              issue.Some? && WasRevoked(moves[..n], answers, issue.value.0));
      if issue.Some? { WasRevokedStep(moves, all, issue.value.0); }
      WasRevokedStep(moves, all, t.tokens.nextId);
      RevokedIdsAreOld(d, s, moves[..n], t.tokens.nextId);
    }
  }

  predicate Usable(moves: seq<Move>, answers: seq<Answer>, raw: string)
    requires |answers| == |moves|
  {
    raw != "" && IssueOf(moves, answers, raw).Some? && !WasRevoked(moves, answers, IssueOf(moves, answers, raw).value.0)
  }

  /** The access decision, from the history: 401 exactly for a token that was never issued or has
      been revoked, 403 exactly for an upload with a usable read token. */
  lemma AccessLaw(d: Digest, s: State, moves: seq<Move>, i: nat)
    requires Injective(d) && s.tokens.rows == map[] && i < |moves| && moves[i].request.Arrive?
    requires ValidHash(moves[i].request.op.hash) && !moves[i].world.dbFails
    requires moves[i].request.call !in Play(d, s, moves[..i]).0.flights
    ensures var (r, a) := (moves[i].request, Play(d, s, moves).1[i]);
      var past := Play(d, s, moves).1[..i];
      && (a == Status(UNAUTHORIZED) <==> !Usable(moves[..i], past, r.token))
      && (a == Status(FORBIDDEN) <==> r.op.Upload? && Usable(moves[..i], past, r.token)
                                      && IssueOf(moves[..i], past, r.token).value.1 == Read)
  {
    PlayPrefix(d, s, moves, i);
    TokenHistory(d, s, moves[..i], moves[i].request.token);
  }

  /** A request that arrives with a usable token dates the use of that token, and of no other. */
  lemma ArrivalStampsUse(d: Digest, s: State, call: nat, op: Op, token: string, w: World, other: string)
    requires call !in s.flights && ValidHash(op.hash) && token != "" && !w.dbFails && Active(s.tokens, d.of(token))
    ensures var (before, after) := (s.tokens.rows, Next(d, s, Arrive(call, op, token), w).0.tokens.rows);
      && after.Keys == before.Keys && after[d.of(token)] == before[d.of(token)].(lastUsedAt := Some(w.now))
      && (other in before && other != d.of(token) ==> after[other] == before[other])
  {
    UseStamps(s.tokens, d.of(token), w.now, other);
  }

  /** Every answer to an arriving request, from the history: 400 exactly for an invalid hash; then 500
      exactly if a token is given and cannot be looked up; then 401 and 403 as above; and otherwise it
      goes on. */
  lemma ArrivalLaw(d: Digest, s: State, moves: seq<Move>, i: nat)
    requires Injective(d) && s.tokens.rows == map[] && i < |moves| && moves[i].request.Arrive?
    requires moves[i].request.call !in Play(d, s, moves[..i]).0.flights
    ensures var (r, a) := (moves[i].request, Play(d, s, moves).1[i]);
      var past := Play(d, s, moves).1[..i];
      var looked := ValidHash(r.op.hash) && (r.token == "" || !moves[i].world.dbFails);
      && (a == Status(400) <==> !ValidHash(r.op.hash))
      && (a == Status(500) <==> ValidHash(r.op.hash) && r.token != "" && moves[i].world.dbFails)
      && (a == Status(401) <==> looked && !Usable(moves[..i], past, r.token))
      && (a == Status(403) <==> looked && r.op.Upload? && Usable(moves[..i], past, r.token)
                                      && !UsableForWriting(moves[..i], past, r.token))
      && (a == GoesOn <==> looked && Usable(moves[..i], past, r.token)
                           && (r.op.Upload? ==> UsableForWriting(moves[..i], past, r.token)))
  {
    PlayPrefix(d, s, moves, i);
    TokenHistory(d, s, moves[..i], moves[i].request.token);
    ArrivalAnswers(d, Play(d, s, moves[..i]).0, moves[i].request, moves[i].world);
  }

  lemma ArrivalAnswers(d: Digest, s: State, r: Request, w: World)
    requires r.Arrive? && r.call !in s.flights
    ensures var (a, row) := (Next(d, s, r, w).1, d.of(r.token));
      if !ValidHash(r.op.hash) then a == Status(400)
      else if r.token == "" then a == Status(401)
      else if w.dbFails then a == Status(500)
      else if row !in s.tokens.rows || s.tokens.rows[row].revokedAt.Some? then a == Status(401)
      else if r.op.Upload? && s.tokens.rows[row].scope != Write then a == Status(403)
      else a == GoesOn
  {
  }

  /** A token is issued exactly if the database works and the raw token is new; else the answer is an
      error or a conflict. */
  lemma IssueLaw(d: Digest, s: State, moves: seq<Move>, i: nat)
    requires Injective(d) && s.tokens.rows == map[] && i < |moves| && moves[i].request.CreateToken?
    ensures var (r, a) := (moves[i].request, Play(d, s, moves).1[i]);
      var known := IssueOf(moves[..i], Play(d, s, moves).1[..i], r.raw).Some?;
      && (a == Errored <==> moves[i].world.dbFails)
      && (a == Status(409) <==> !moves[i].world.dbFails && known)
      && (a.Issued? <==> !moves[i].world.dbFails && !known)
  {
    PlayPrefix(d, s, moves, i);
    TokenHistory(d, s, moves[..i], moves[i].request.raw);
  }

  lemma {:induction false} RowsAreDigests(d: Digest, s: State, moves: seq<Move>, digest: string)
    requires s.tokens.rows == map[] && digest in Play(d, s, moves).0.tokens.rows
    ensures exists raw :: d.of(raw) == digest
  {
    if moves != [] {
      var n := |moves| - 1;
      OneStatement(d, Play(d, s, moves[..n]).0, moves[n].request, moves[n].world);
      if digest in Play(d, s, moves[..n]).0.tokens.rows {
        RowsAreDigests(d, s, moves[..n], digest);
      } else {
        assert d.of(moves[n].request.raw) == digest;
      }
    }
  }

  /** The token of this id was issued and not revoked. */
  ghost predicate InForce(moves: seq<Move>, answers: seq<Answer>, id: nat)
    requires |answers| == |moves|
  {
    !WasRevoked(moves, answers, id)
    && exists raw :: IssueOf(moves, answers, raw).Some? && IssueOf(moves, answers, raw).value.0 == id
  }

  /** A revocation works exactly if the database does and a token of that id is in force. */
  lemma RevocationLaw(d: Digest, s: State, moves: seq<Move>, i: nat)
    requires Injective(d) && s.tokens.rows == map[] && i < |moves| && moves[i].request.RevokeToken?
    ensures var (id, a) := (moves[i].request.id, Play(d, s, moves).1[i]);
      var inForce := InForce(moves[..i], Play(d, s, moves).1[..i], id);
      && (a == Errored <==> moves[i].world.dbFails)
      && (a == Succeeded <==> !moves[i].world.dbFails && inForce)
      && (a == Status(404) <==> !moves[i].world.dbFails && !inForce)
  {
    var id := moves[i].request.id;
    PlayPrefix(d, s, moves, i);
    RevocableIffInForce(d, s, moves[..i], id);
  }

  lemma RevocableIffInForce(d: Digest, s: State, moves: seq<Move>, id: nat)
    requires Injective(d) && s.tokens.rows == map[]
    ensures Revocable(Play(d, s, moves).0.tokens, id) <==> InForce(moves, Play(d, s, moves).1, id)
  {
    var (t, answers) := Play(d, s, moves);
    if Revocable(t.tokens, id) {
      var digest :| digest in t.tokens.rows && t.tokens.rows[digest].id == id && t.tokens.rows[digest].revokedAt.None?;
      RowsAreDigests(d, s, moves, digest);
      var raw :| d.of(raw) == digest;
      TokenHistory(d, s, moves, raw);
      assert IssueOf(moves, answers, raw).Some? && IssueOf(moves, answers, raw).value.0 == id;
    }
    if InForce(moves, answers, id) {
      var raw :| IssueOf(moves, answers, raw).Some? && IssueOf(moves, answers, raw).value.0 == id;
      TokenHistory(d, s, moves, raw);
      assert d.of(raw) in t.tokens.rows && t.tokens.rows[d.of(raw)].id == id;
    }
  }

  /** Request `i` was let through by move `k`, when its token had been issued for writing and not been
      revoked, and its length was within the limit at the later move `j`. */
  predicate AuthorizedBy(d: Digest, s: State, moves: seq<Move>, i: nat, k: nat, j: nat)
    requires i < |moves| && moves[i].request.Serve? && moves[i].request.op.Upload?
  {
    var (r, answers) := (moves[i].request, Play(d, s, moves).1);
    && k < j < i && moves[k].request.Arrive?
    && LetThrough(moves, answers, k, r.call, r.op, moves[k].request.token)
    && MeasuredAt(moves, answers, j, r.call)
    && (forall n :: k < n < i ==> !EndsFlight(moves[n].request, answers[n], r.call))
    && UsableForWriting(moves[..k], answers[..k], moves[k].request.token)
    && 0 < r.op.length <= Play(d, s, moves[..j]).0.maxEntryBytes
  }

  predicate UsableForWriting(moves: seq<Move>, answers: seq<Answer>, raw: string)
    requires |answers| == |moves|
  {
    Usable(moves, answers, raw) && IssueOf(moves, answers, raw).value.1 == Write
  }

  lemma LetThroughIsAllowed(d: Digest, s: State, r: Request, w: World)
    requires r.Arrive? && r.op.Upload? && Next(d, s, r, w).1 == GoesOn
    ensures r.token != "" && Active(s.tokens, d.of(r.token)) && s.tokens.rows[d.of(r.token)].scope == Write
  {
  }

  lemma LetThroughMeans(d: Digest, s: State, moves: seq<Move>, k: nat)
    requires Injective(d) && s.tokens.rows == map[] && k < |moves|
    requires moves[k].request.Arrive? && moves[k].request.op.Upload? && Play(d, s, moves).1[k] == GoesOn
    ensures UsableForWriting(moves[..k], Play(d, s, moves).1[..k], moves[k].request.token)
  {
    PlayPrefix(d, s, moves, k);
    TokenHistory(d, s, moves[..k], moves[k].request.token);
    LetThroughIsAllowed(d, Play(d, s, moves[..k]).0, moves[k].request, moves[k].world);
  }

  lemma MeasuredFits(s: State, call: nat)
    requires AfterMeasure(s, call).1 == GoesOn
    ensures call in s.flights && s.flights[call].Vouched?
    ensures s.flights[call].op.Upload? ==> 0 < s.flights[call].op.length <= s.maxEntryBytes
  {
  }

  /** What is measured is what was let through. */
  lemma MeasuredMeans(d: Digest, s: State, moves: seq<Move>, k: nat, j: nat, call: nat, op: Op, token: string)
    requires s.flights == map[] && k < j < |moves| && op.Upload?
    requires LetThrough(moves, Play(d, s, moves).1, k, call, op, token)
    requires MeasuredAt(moves, Play(d, s, moves).1, j, call)
    requires forall n :: k < n < j ==> !EndsFlight(moves[n].request, Play(d, s, moves).1[n], call)
    ensures 0 < op.length <= Play(d, s, moves[..j]).0.maxEntryBytes
  {
    PlayPrefix(d, s, moves, j);
    PlayPrefix(d, s, moves, k);
    PlayStep(d, s, moves, k);
    ArrivalTakesOff(d, Play(d, s, moves[..k]).0, moves[k].request, moves[k].world);
    FlightLasts(d, s, moves, k + 1, j, call, op);
    MeasuredFits(Play(d, s, moves[..j]).0, call);
  }

  lemma ArrivalTakesOff(d: Digest, s: State, r: Request, w: World)
    requires r.Arrive? && Next(d, s, r, w).1 == GoesOn
    ensures r.call in Next(d, s, r, w).0.flights && Next(d, s, r, w).0.flights[r.call].op == r.op
  {
  }

  lemma OneMoveKeepsOp(d: Digest, s: State, m: Move, call: nat)
    requires call in s.flights && !EndsFlight(m.request, Next(d, s, m.request, m.world).1, call)
    ensures var t := Next(d, s, m.request, m.world).0; call in t.flights && t.flights[call].op == s.flights[call].op
  {
  }

  /** Before move `k` the call is in flight with this operation. */
  predicate Flies(d: Digest, s: State, moves: seq<Move>, k: nat, call: nat, op: Op)
    requires k <= |moves|
  {
    call in Play(d, s, moves[..k]).0.flights && Play(d, s, moves[..k]).0.flights[call].op == op
  }

  lemma {:induction false} FlightLasts(d: Digest, s: State, moves: seq<Move>, k: nat, j: nat, call: nat, op: Op)
    requires k <= j <= |moves| && Flies(d, s, moves, k, call, op)
    requires forall n :: k <= n < j ==> !EndsFlight(moves[n].request, Play(d, s, moves).1[n], call)
    ensures Flies(d, s, moves, j, call, op)
  {
    if j > k {
      FlightLasts(d, s, moves, k, j - 1, call, op);
      NextMoveKeepsOp(d, s, moves, j, call, op);
    }
  }

  lemma NextMoveKeepsOp(d: Digest, s: State, moves: seq<Move>, j: nat, call: nat, op: Op)
    requires 0 < j <= |moves| && Flies(d, s, moves, j - 1, call, op)
    requires !EndsFlight(moves[j - 1].request, Play(d, s, moves).1[j - 1], call)
    ensures Flies(d, s, moves, j, call, op)
  {
    PlayPrefix(d, s, moves, j - 1);
    PlayStep(d, s, moves, j - 1);
    OneMoveKeepsOp(d, Play(d, s, moves[..j - 1]).0, moves[j - 1], call);
  }

  /** Every upload answered 200 was authorized by two earlier moves: let through, and measured. */
  lemma UploadsWereAuthorized(d: Digest, s: State, moves: seq<Move>, i: nat)
    requires Injective(d) && s.tokens.rows == map[] && s.flights == map[]
    requires i < |moves| && moves[i].request.Serve? && moves[i].request.op.Upload?
    requires Play(d, s, moves).1[i] == Status(OK)
    ensures exists k, j :: AuthorizedBy(d, s, moves, i, k, j)
  {
    var r, answers := moves[i].request, Play(d, s, moves).1;
    var token, k, j, h := ServedFromHeldPlace(d, s, moves, i);
    assert forall n :: 0 <= n < i ==> moves[..i][n] == moves[n] && answers[..i][n] == answers[n];
    assert LetThrough(moves, answers, k, r.call, r.op, token) && MeasuredAt(moves, answers, j, r.call);
    LetThroughMeans(d, s, moves, k);
    MeasuredMeans(d, s, moves, k, j, r.call, r.op, token);
    assert AuthorizedBy(d, s, moves, i, k, j);
  }

  // ---------------------------------------------------------------- uploads that outlive their token

  /** Move `k` stores an upload that was let through with `raw`. */
  predicate StoredAt(d: Digest, s: State, moves: seq<Move>, raw: string, k: nat) {
    && k < |moves| && moves[k].request.Serve? && moves[k].request.op.Upload? && Play(d, s, moves).1[k] == Status(OK)
    && var t := Play(d, s, moves[..k]).0;
    moves[k].request.call in t.flights && t.flights[moves[k].request.call].token == raw
  }

  /** An upload in flight with `raw`, whose body is as long as announced. */
  predicate CanBeStored(s: State, raw: string, call: nat) {
    && call in s.flights && s.flights[call].op.Upload? && s.flights[call].token == raw
    && 0 <= s.flights[call].op.length <= |s.flights[call].op.body|
    && (s.flights[call].Vouched? ==> s.flights[call].op.length > 0)
  }

  predicate IsRevoked(d: Digest, s: State, raw: string) {
    d.of(raw) in s.tokens.rows && s.tokens.rows[d.of(raw)].revokedAt.Some?
  }

  lemma RevokedRowStays(d: Digest, s: State, m: Move, raw: string)
    requires IsRevoked(d, s, raw)
    ensures IsRevoked(d, Next(d, s, m.request, m.world).0, raw)
  {
    OneStatement(d, s, m.request, m.world);
  }

  lemma RevokedIsRefused(d: Digest, s: State, m: Move, raw: string)
    requires IsRevoked(d, s, raw) && m.request.Arrive? && m.request.token == raw
    ensures Next(d, s, m.request, m.world).1 != GoesOn && Next(d, s, m.request, m.world).0.flights == s.flights
  {
  }

  /** After the revocation no move brings a new upload of the token into flight. */
  lemma OneMoveBringsNone(d: Digest, s: State, m: Move, raw: string, call: nat)
    requires IsRevoked(d, s, raw) && CanBeStored(Next(d, s, m.request, m.world).0, raw, call)
    ensures CanBeStored(s, raw, call)
  {
    FlightStep(d, s, m, call);
    if m.request.Arrive? && m.request.token == raw { RevokedIsRefused(d, s, m, raw); }
    if m.request == Measure(call) && Next(d, s, m.request, m.world).1 == GoesOn { MeasuredFits(s, call); }
  }

  lemma {:induction false} RunBringsNone(d: Digest, s: State, moves: seq<Move>, raw: string, call: nat)
    requires IsRevoked(d, s, raw) && CanBeStored(Play(d, s, moves).0, raw, call)
    ensures CanBeStored(s, raw, call)
  {
    if moves != [] {
      var n := |moves| - 1;
      RunKeepsRevoked(d, s, moves[..n], raw);
      OneMoveBringsNone(d, Play(d, s, moves[..n]).0, moves[n], raw, call);
      RunBringsNone(d, s, moves[..n], raw, call);
    }
  }

  lemma {:induction false} RunKeepsRevoked(d: Digest, s: State, moves: seq<Move>, raw: string)
    requires IsRevoked(d, s, raw)
    ensures IsRevoked(d, Play(d, s, moves).0, raw)
  {
    if moves != [] {
      var n := |moves| - 1;
      RunKeepsRevoked(d, s, moves[..n], raw);
      RevokedRowStays(d, Play(d, s, moves[..n]).0, moves[n], raw);
    }
  }

  /** When a held upload is stored: the storage works, the hash is absent there, and the body is as
      long as announced; no revocation has a say in it. */
  lemma HeldUploadAnswer(d: Digest, s: State, call: nat, op: Op, place: Place, w: World, id: nat, v: World)
    requires Holds(s, call, op, place) && op.Upload?
    ensures Next(d, s, Serve(call, op, place), w).1 == Status(OK) <==>
      !w.storageFails && op.hash !in At(s.stores, place) && 0 <= op.length <= |op.body|
    ensures Next(d, Next(d, s, RevokeToken(id), v).0, Serve(call, op, place), w).1 ==
      Next(d, s, Serve(call, op, place), w).1
  {
  }

  lemma StoredLater(d: Digest, s: State, m: Move, moves: seq<Move>, raw: string, k: nat)
    requires StoredAt(d, Next(d, s, m.request, m.world).0, moves, raw, k)
    ensures StoredAt(d, s, [m] + moves, raw, k + 1)
  {
    PlayBehind(d, s, m, moves, k);
  }

  const FINE := World(0, false, false)

  lemma HoldingIsStored(d: Digest, s: State, raw: string, call: nat) returns (moves: seq<Move>, k: nat)
    requires CanBeStored(s, raw, call) && s.flights[call].Holding?
    ensures StoredAt(d, s, moves, raw, k)
  {
    var f := s.flights[call];
    var clear, serve := Move(DeleteEntry(f.place, f.op.hash), FINE), Move(Serve(call, f.op, f.place), FINE);
    var t := Next(d, s, clear.request, FINE).0;
    HeldUploadAnswer(d, t, call, f.op, f.place, FINE, 0, FINE);
    PlayFirst(d, t, serve);
    assert [serve][..0] == [];
    assert StoredAt(d, t, [serve], raw, 0);
    StoredLater(d, s, clear, [serve], raw, 0);
    moves, k := [clear] + [serve], 1;
  }

  lemma AdmittedIsStored(d: Digest, s: State, raw: string, call: nat) returns (moves: seq<Move>, k: nat)
    requires CanBeStored(s, raw, call) && s.flights[call].Admitted?
    ensures StoredAt(d, s, moves, raw, k)
  {
    var hold := Move(Hold(call), FINE);
    var t := Next(d, s, hold.request, FINE).0;
    moves, k := HoldingIsStored(d, t, raw, call);
    StoredLater(d, s, hold, moves, raw, k);
    moves, k := [hold] + moves, k + 1;
  }

  lemma VouchedIsStored(d: Digest, s: State, raw: string, call: nat) returns (moves: seq<Move>, k: nat)
    requires CanBeStored(s, raw, call) && s.flights[call].Vouched?
    ensures StoredAt(d, s, moves, raw, k)
  {
    var allow, measure := Move(SetMaxEntryBytes(s.flights[call].op.length), FINE), Move(Measure(call), FINE);
    var t := Next(d, s, allow.request, FINE).0;
    var u := Next(d, t, measure.request, FINE).0;
    moves, k := AdmittedIsStored(d, u, raw, call);
    StoredLater(d, t, measure, moves, raw, k);
    StoredLater(d, s, allow, [measure] + moves, raw, k + 1);
    moves, k := [allow] + ([measure] + moves), k + 2;
  }

  /** Once a token is revoked, some continuation stores an upload let through with it if and only if
      an upload with it is in flight whose body is as long as announced. */
  lemma RevokedTokenStoresIff(d: Digest, s: State, raw: string)
    requires IsRevoked(d, s, raw)
    ensures (exists moves, k :: StoredAt(d, s, moves, raw, k)) <==> exists call :: CanBeStored(s, raw, call)
  {
    if moves: seq<Move>, k: nat :| StoredAt(d, s, moves, raw, k) {
      var t, r := Play(d, s, moves[..k]).0, moves[k].request;
      PlayPrefix(d, s, moves, k);
      ServeNeedsFlight(d, t, r, moves[k].world);
      HeldUploadAnswer(d, t, r.call, r.op, r.place, moves[k].world, 0, FINE);
      assert CanBeStored(t, raw, r.call);
      RunBringsNone(d, s, moves[..k], raw, r.call);
    }
    if call :| CanBeStored(s, raw, call) {
      var moves: seq<Move>, k: nat;
      match s.flights[call]
      case Vouched(_, _) => moves, k := VouchedIsStored(d, s, raw, call);
      case Admitted(_, _) => moves, k := AdmittedIsStored(d, s, raw, call);
      case Holding(_, _, _) => moves, k := HoldingIsStored(d, s, raw, call);
      assert StoredAt(d, s, moves, raw, k);
    }
  }

  /** The revocation itself: it is final for uploads if and only if none with its token is in flight
      at that moment that could be stored. */
  lemma RevocationIsFinalIff(d: Digest, s: State, raw: string, w: World)
    requires Active(s.tokens, d.of(raw)) && !w.dbFails
    ensures var t := Next(d, s, RevokeToken(s.tokens.rows[d.of(raw)].id), w).0;
      (forall moves, k :: !StoredAt(d, t, moves, raw, k)) <==> forall call :: !CanBeStored(s, raw, call)
  {
    var t := Next(d, s, RevokeToken(s.tokens.rows[d.of(raw)].id), w).0;
    RevokedTokenStoresIff(d, t, raw);
    assert forall call :: CanBeStored(t, raw, call) <==> CanBeStored(s, raw, call);
  }

  /** It need not be: the token of an upload is revoked after the upload was let through, and the
      upload is stored all the same. */
  lemma RevocationCanComeTooLate(d: Digest, s: State, raw: string, w: World)
    requires CanUpload(d, s, raw) && !w.dbFails && !w.storageFails
    ensures var id := s.tokens.rows[d.of(raw)].id;
      Play(d, s, [Move(Arrive(1, SMALL_UPLOAD, raw), w), Move(Measure(1), w), Move(Hold(1), w),
                  Move(RevokeToken(id), w), Move(Serve(1, SMALL_UPLOAD, s.live), w)]).1
        == [GoesOn, GoesOn, Succeeded, Succeeded, Status(OK)]
  {
    var id := s.tokens.rows[d.of(raw)].id;
    var first := [Move(Arrive(1, SMALL_UPLOAD, raw), w), Move(Measure(1), w),
                  Move(Hold(1), w), Move(RevokeToken(id), w)];
    var serve := Move(Serve(1, SMALL_UPLOAD, s.live), w);
    UploadIsHeld(d, s, raw, w);
    PlayFour(d, s, first[0], first[1], first[2], first[3]);
    var held := s.(tokens := Used(s.tokens, d.of(raw), w.now), flights := map[1 := Holding(SMALL_UPLOAD, raw, s.live)]);
    assert held.tokens.rows[d.of(raw)].id == id && Revocable(held.tokens, id);
    HeldUploadAnswer(d, held, 1, SMALL_UPLOAD, s.live, w, id, w);
    PlayOne(d, s, first, serve);
    assert first + [serve] == [first[0], first[1], first[2], first[3], serve];
  }
}
