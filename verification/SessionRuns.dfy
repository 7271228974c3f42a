/** Who is logged in, told from the history of requests alone. */
module SessionRuns {
  import opened Wrappers
  import opened Sessions

  // ---------------------------------------------------------------- what the history says

  /** A login for this raw id succeeded. */
  predicate LoginAt(moves: seq<Move>, answers: seq<Answer>, k: int, raw: string)
    requires |answers| == |moves|
  {
    0 <= k < |moves| && moves[k].request.Login? && moves[k].request.raw == raw && answers[k].LoggedIn?
  }

  /** A request that ends the session `raw` of user `id`: its logout (which a failing database
      leaves undone, although it is answered 200), or the removal of the user. */
  predicate Ends(m: Move, a: Answer, raw: string, id: nat) {
    || (m.request == Logout(raw) && a == Ok && !m.world.dbFails)
    || (m.request.RunDelete? && m.request.id == id && a == Ok)
  }

  predicate LiveLogin(moves: seq<Move>, answers: seq<Answer>, k: int, raw: string)
    requires |answers| == |moves|
  {
    LoginAt(moves, answers, k, raw) && forall j :: k < j < |moves| ==> !Ends(moves[j], answers[j], raw, answers[k].id)
  }

  /** The lifetime in force before request `k`: the last one set, else the initial one. */
  function TTLAt(initial: int, moves: seq<Move>, k: nat): int
    requires k <= |moves|
  {
    if k == 0 then initial
    else if moves[k - 1].request.SetTTL? then moves[k - 1].request.ttl
    else TTLAt(initial, moves, k - 1)
  }

  lemma {:induction false} TTLInPrefix(initial: int, moves: seq<Move>, n: nat, k: nat)
    requires k <= n <= |moves|
    ensures TTLAt(initial, moves[..n], k) == TTLAt(initial, moves, k)
  {
    if k > 0 {
      TTLInPrefix(initial, moves, n, k - 1);
    }
  }

  lemma {:induction false} TTLInForce(c: Crypto, s: State, moves: seq<Move>)
    ensures Play(c, s, moves).0.ttl == TTLAt(s.ttl, moves, |moves|)
  {
    if moves != [] {
      var n := |moves| - 1;
      TTLInForce(c, s, moves[..n]);
      TTLInPrefix(s.ttl, moves, n, n);
    }
  }

  // ---------------------------------------------------------------- the row of one session

  function RowOf(c: Crypto, s: State, raw: string): Option<Session> {
    if c.digest(raw) in s.sessions then Some(s.sessions[c.digest(raw)]) else None
  }

  lemma RowStep(c: Crypto, s: State, m: Move, raw: string)
    requires Injective(c)
    ensures var (t, a) := Next(c, s, m.request, m.world);
      if m.request.Login? && m.request.raw == raw && a.LoggedIn? then
        RowOf(c, s, raw) == None && RowOf(c, t, raw) == Some(Session(a.id, m.world.now + s.ttl))
      else if RowOf(c, s, raw).Some? && Ends(m, a, raw, RowOf(c, s, raw).value.userId) then
        RowOf(c, t, raw) == None
      else RowOf(c, t, raw) == RowOf(c, s, raw)
  {
  }

  /** The row is the one the live login wrote, and there is none without a live login. */
  ghost predicate Explained(row: Option<Session>, initial: int, moves: seq<Move>, answers: seq<Answer>, raw: string)
    requires |answers| == |moves|
  {
    && (forall k :: LiveLogin(moves, answers, k, raw) ==>
          row == Some(Session(answers[k].id, moves[k].world.now + TTLAt(initial, moves, k))))
    && ((forall k :: !LiveLogin(moves, answers, k, raw)) ==> row == None)
  }

  lemma LiveLoginStep(moves: seq<Move>, answers: seq<Answer>, raw: string, k: int)
    requires |answers| == |moves| > 0
    ensures var n := |moves| - 1;
      LiveLogin(moves, answers, k, raw) <==>
        if k == n then LoginAt(moves, answers, n, raw)
        else LiveLogin(moves[..n], answers[..n], k, raw) && !Ends(moves[n], answers[n], raw, answers[k].id)
  {
    var n := |moves| - 1;
    assert forall j :: 0 <= j < n ==> moves[j] == moves[..n][j] && answers[j] == answers[..n][j];
  }

  lemma ExplainedStep(before: Option<Session>, after: Option<Session>, initial: int,
                      moves: seq<Move>, answers: seq<Answer>, raw: string)
    requires |answers| == |moves| > 0
    requires Explained(before, initial, moves[..|moves| - 1], answers[..|moves| - 1], raw)
    requires var n := |moves| - 1;
      if LoginAt(moves, answers, n, raw) then
        before == None && after == Some(Session(answers[n].id, moves[n].world.now + TTLAt(initial, moves, n)))
      else if before.Some? && Ends(moves[n], answers[n], raw, before.value.userId) then after == None
      else after == before
    ensures Explained(after, initial, moves, answers, raw)
  {
    var n := |moves| - 1;
    forall k ensures LiveLogin(moves, answers, k, raw) <==>
      (if k == n then LoginAt(moves, answers, n, raw)
       else LiveLogin(moves[..n], answers[..n], k, raw) && !Ends(moves[n], answers[n], raw, answers[k].id))
    {
      LiveLoginStep(moves, answers, raw, k);
    }
    forall k | 0 <= k <= n ensures TTLAt(initial, moves[..n], k) == TTLAt(initial, moves, k) {
      TTLInPrefix(initial, moves, n, k);
    }
  }

  lemma {:induction false} RowIsExplained(c: Crypto, s: State, moves: seq<Move>, raw: string)
    requires Injective(c) && s.sessions == map[]
    ensures var (t, answers) := Play(c, s, moves); Explained(RowOf(c, t, raw), s.ttl, moves, answers, raw)
  {
    if moves != [] {
      var n := |moves| - 1;
      var (t, answers) := Play(c, s, moves[..n]);
      RowIsExplained(c, s, moves[..n], raw);
      RowStep(c, t, moves[n], raw);
      TTLInForce(c, s, moves[..n]);
      TTLInPrefix(s.ttl, moves, n, n);
      var (u, all) := Play(c, s, moves);
      assert all[..n] == answers;
      ExplainedStep(RowOf(c, t, raw), RowOf(c, u, raw), s.ttl, moves, all, raw);
    }
  }

  lemma {:induction false} RunKeepsSound(c: Crypto, s: State, moves: seq<Move>)
    requires Sound(s)
    ensures Sound(Play(c, s, moves).0)
  {
    if moves != [] {
      var n := |moves| - 1;
      RunKeepsSound(c, s, moves[..n]);
      OneRequestKeepsSound(c, Play(c, s, moves[..n]).0, moves[n].request, moves[n].world);
    }
  }

  /** A user of this email and id is in the table, and the password verifies against its hash. */
  predicate Vouches(c: Crypto, s: State, email: string, password: string, id: nat) {
    email in s.users && s.users[email].id == id && c.verify(s.users[email].passwordHash, password)
  }

  /** Every answer to a login: a session of user `id` exactly for the right password of that user, when
      the statements work and the raw id is new; 401 exactly if no user has that email and password; and
      500 otherwise. */
  lemma LoginAnswers(c: Crypto, s: State, email: string, password: string, raw: string, w: World, id: nat)
    ensures var a := Next(c, s, Login(email, password, raw), w).1;
      && (a == LoggedIn(id) <==> !w.lookupFails && !w.dbFails && c.digest(raw) !in s.sessions
                                 && Vouches(c, s, email, password, id))
      && (a == Status(401) <==> !w.lookupFails && forall i :: !Vouches(c, s, email, password, i))
      && (a.LoggedIn? || a == Status(401) || a == Status(500))
  {
    if email in s.users && c.verify(s.users[email].passwordHash, password) {
      assert Vouches(c, s, email, password, s.users[email].id);
    }
  }

  /** The login at `k` presented a password that verified then. */
  predicate Presented(c: Crypto, s: State, moves: seq<Move>, k: int, id: nat) {
    0 <= k < |moves| && moves[k].request.Login?
    && Vouches(c, Play(c, s, moves[..k]).0, moves[k].request.email, moves[k].request.password, id)
  }

  lemma {:induction false} PastAnswers(c: Crypto, s: State, moves: seq<Move>, k: nat)
    requires k < |moves|
    ensures Play(c, s, moves).1[k] == Next(c, Play(c, s, moves[..k]).0, moves[k].request, moves[k].world).1
  {
    var n := |moves| - 1;
    if k < n {
      PastAnswers(c, s, moves[..n], k);
      assert moves[..n][..k] == moves[..k];
      FrontAnswer(c, s, moves, k);
    }
  }

  lemma FrontAnswer(c: Crypto, s: State, moves: seq<Move>, k: nat)
    requires k < |moves| - 1
    ensures Play(c, s, moves).1[k] == Play(c, s, moves[..|moves| - 1]).1[k]
  {
  }

  lemma LoginsPresent(c: Crypto, s: State, moves: seq<Move>, raw: string, k: nat)
    requires LoginAt(moves, Play(c, s, moves).1, k, raw)
    ensures Presented(c, s, moves, k, Play(c, s, moves).1[k].id)
  {
    var m, id := moves[k], Play(c, s, moves).1[k].id;
    PastAnswers(c, s, moves, k);
    LoginAnswers(c, Play(c, s, moves[..k]).0, m.request.email, m.request.password, m.request.raw, m.world, id);
  }

  /** After any run a raw session id stands for user `id` exactly when the history has a login
      for it as that user, with a password that verified then, not followed by its logout or by the
      removal of the user, and the time is before the login plus the lifetime then in force. */
  lemma WhoIsLoggedIn(c: Crypto, s: State, moves: seq<Move>, raw: string, now: int, id: nat)
    requires Injective(c) && Sound(s) && s.sessions == map[]
    ensures var (t, answers) := Play(c, s, moves);
      CurrentUser(c, t, raw, now) == Some(id) <==>
        raw != "" && exists k :: LiveLogin(moves, answers, k, raw) && answers[k].id == id
                                 && Presented(c, s, moves, k, id)
                                 && now < moves[k].world.now + TTLAt(s.ttl, moves, k)
  {
    RowIsExplained(c, s, moves, raw);
    RunKeepsSound(c, s, moves);
    var answers := Play(c, s, moves).1;
    forall k | LiveLogin(moves, answers, k, raw) ensures Presented(c, s, moves, k, answers[k].id) {
      LoginsPresent(c, s, moves, raw, k);
    }
  }

  // ---------------------------------------------------------------- what the other answers are

  /** The raw id has a row that has not expired, of a user who exists. */
  predicate Known(c: Crypto, s: State, raw: string, now: int) {
    && raw != "" && c.digest(raw) in s.sessions && now < s.sessions[c.digest(raw)].expiresAt
    && exists e :: e in s.users && s.users[e].id == s.sessions[c.digest(raw)].userId
  }

  /** A protected request is answered 401 exactly if the lookup fails or the raw id is not known; and
      `WhoAmI` otherwise names the user of the session. */
  lemma ProtectedAnswers(c: Crypto, s: State, r: Request, w: World)
    requires IsProtected(r)
    ensures var (t, a) := Next(c, s, r, w);
      && (a == Status(401) <==> w.lookupFails || !Known(c, s, r.raw, w.now))
      && (a == Status(401) ==> t == s)
      && (r.WhoAmI? && a != Status(401) ==> a == IsUser(s.sessions[c.digest(r.raw)].userId) && t == s)
  {
  }

  /** A logout let through is answered 200, and its session is gone exactly if the statement works. */
  lemma LogoutAnswers(c: Crypto, s: State, raw: string, w: World)
    requires !w.lookupFails && Known(c, s, raw, w.now)
    ensures var (t, a) := Next(c, s, Logout(raw), w);
      && a == Ok && t.users == s.users
      && (c.digest(raw) in t.sessions <==> w.dbFails)
      && forall x :: x != c.digest(raw) && x in s.sessions ==> x in t.sessions && t.sessions[x] == s.sessions[x]
  {
  }

  /** Creating a user: 400 for an email or a password that will not do, 409 for an email that is taken,
      and else the user is there with the given hash and an id nobody had. */
  lemma CreateUserAnswers(c: Crypto, s: State, raw: string, email: string, password: string, hash: string, w: World)
    requires Sound(s) && !w.lookupFails && Known(c, s, raw, w.now)
    ensures var (t, a) := Next(c, s, CreateUser(raw, email, password, hash), w);
      var fine := '@' in email && |email| >= 3 && |password| >= 8;
      && (a == Status(400) <==> !fine)
      && (a == Status(500) <==> fine && w.dbFails)
      && (a == Status(409) <==> fine && !w.dbFails && email in s.users)
      && (a.IsUser? <==> fine && !w.dbFails && email !in s.users)
      && (a.IsUser? ==> t.users == s.users[email := User(a.id, hash)])
      && (a.IsUser? ==> forall e :: e in s.users ==> s.users[e].id != a.id)
      && (!a.IsUser? ==> t.users == s.users)
  {
  }

  /** Nobody can delete the own account or the last one; any other deletion goes on to its statement. */
  lemma DeleteUserAnswers(c: Crypto, s: State, call: nat, raw: string, id: nat, w: World)
    requires !w.lookupFails && Known(c, s, raw, w.now) && call !in s.deleting
    ensures var (t, a) := Next(c, s, DeleteUser(call, raw, id), w);
      var own := id == s.sessions[c.digest(raw)].userId;
      && (a == Status(400) <==> own || (!w.dbFails && |s.users| <= 1))
      && (a == Status(500) <==> !own && w.dbFails)
      && (a == GoesOn <==> !own && !w.dbFails && |s.users| > 1)
      && t.users == s.users && t.sessions == s.sessions
  {
  }

  /** The statement takes exactly that user and those sessions, or answers that there is no such user. */
  lemma RunDeleteAnswers(c: Crypto, s: State, call: nat, id: nat, w: World)
    requires call in s.deleting && s.deleting[call] == id
    ensures var (t, a) := Next(c, s, RunDelete(call, id), w);
      var there := exists e :: e in s.users && s.users[e].id == id;
      && (a == Status(500) <==> w.dbFails)
      && (a == Status(404) <==> !w.dbFails && !there)
      && (a == Ok <==> !w.dbFails && there)
      && (a != Ok ==> t.users == s.users && t.sessions == s.sessions)
      && (a == Ok ==> t.users == map e | e in s.users && s.users[e].id != id :: s.users[e])
      && (a == Ok ==> t.sessions == map x | x in s.sessions && s.sessions[x].userId != id :: s.sessions[x])
  {
  }

  /** A logout can be answered 200 and leave the session as it is: the failing statement is ignored,
      and the raw id still stands for the user. */
  lemma LoggedOutButKnown(c: Crypto, s: State, email: string, password: string, raw: string, w: World)
    requires Sound(s) && s.sessions == map[] && s.ttl > 0 && raw != ""
    requires email in s.users && c.verify(s.users[email].passwordHash, password)
    requires w == World(0, false, false)
    ensures var (t, answers) := Play(c, s, [Move(Login(email, password, raw), w),
                                         Move(Logout(raw), w.(dbFails := true))]);
      answers == [LoggedIn(s.users[email].id), Ok] && CurrentUser(c, t, raw, 0) == Some(s.users[email].id)
  {
    var login, logout := Move(Login(email, password, raw), w), Move(Logout(raw), w.(dbFails := true));
    PlayOne(c, s, [], login);
    assert [] + [login] == [login];
    var t := Play(c, s, [login]).0;
    assert HasUser(t, s.users[email].id);
    PlayOne(c, s, [login], logout);
    assert [login] + [logout] == [login, logout];
  }

  lemma PlayOne(c: Crypto, s: State, a: seq<Move>, m: Move)
    ensures Play(c, s, a + [m]).0 == Next(c, Play(c, s, a).0, m.request, m.world).0
    ensures Play(c, s, a + [m]).1 == Play(c, s, a).1 + [Next(c, Play(c, s, a).0, m.request, m.world).1]
  {
    assert (a + [m])[..|a|] == a;
  }

  // ---------------------------------------------------------------- whether there is always an admin

  /** Some user is not after to be deleted: none of the deletions past their guards is after it,
      nor one after `id`. */
  ghost predicate Spare(s: State, targets: set<nat>) {
    exists e :: e in s.users && s.users[e].id !in s.deleting.Values + targets
  }

  lemma OtherRequestsKeepUsers(c: Crypto, s: State, m: Move)
    requires !m.request.RunDelete?
    ensures var (t, a) := Next(c, s, m.request, m.world);
      && (forall e :: e in s.users ==> e in t.users && t.users[e] == s.users[e])
      && t.deleting ==
           if m.request.DeleteUser? && a == GoesOn then s.deleting[m.request.call := m.request.id] else s.deleting
  {
  }

  /** Anything but a deletion's guards keeps a spare user, and so do the guards when there is
      another one. */
  lemma OneRequestSpares(c: Crypto, s: State, m: Move)
    requires Spare(s, {})
    requires m.request.DeleteUser? && Next(c, s, m.request, m.world).1 == GoesOn ==> Spare(s, {m.request.id})
    ensures Spare(Next(c, s, m.request, m.world).0, {})
  {
    var e :| e in s.users && s.users[e].id !in s.deleting.Values + {};
    if m.request.RunDelete? {
      RunDeleteSpares(s, m.request.call, m.request.id, m.world, e);
    } else {
      OtherRequestsKeepUsers(c, s, m);
      if m.request.DeleteUser? && Next(c, s, m.request, m.world).1 == GoesOn {
        var f :| f in s.users && s.users[f].id !in s.deleting.Values + {m.request.id};
        assert f in Next(c, s, m.request, m.world).0.users;
      }
    }
  }

  lemma RunDeleteSpares(s: State, call: nat, id: nat, w: World, e: string)
    requires e in s.users && s.users[e].id !in s.deleting.Values
    ensures var t := AfterRunDelete(s, call, id, w).0;
      e in t.users && t.users[e].id !in t.deleting.Values
  {
  }

  ghost predicate NoNewDeletions(moves: seq<Move>) {
    forall m :: m in moves ==> !m.request.DeleteUser?
  }

  lemma {:induction false} SpareStays(c: Crypto, s: State, moves: seq<Move>)
    requires Spare(s, {}) && NoNewDeletions(moves)
    ensures Spare(Play(c, s, moves).0, {})
  {
    if moves != [] {
      var n := |moves| - 1;
      SpareStays(c, s, moves[..n]);
      OneRequestSpares(c, Play(c, s, moves[..n]).0, moves[n]);
    }
  }

  /** The moves that let the deletions `order` finish. */
  function Finishing(s: State, order: seq<nat>): seq<Move>
    requires forall call :: call in order ==> call in s.deleting
  {
    seq(|order|, i requires 0 <= i < |order| => Move(RunDelete(order[i], s.deleting[order[i]]), World(0, false, false)))
  }

  predicate Distinct(order: seq<nat>) {
    forall i, j :: 0 <= i < j < |order| ==> order[i] != order[j]
  }

  /** Finishing deletions leaves exactly the users that none of them is after. */
  lemma {:induction false} FinishedUsers(c: Crypto, s: State, order: seq<nat>)
    requires Distinct(order) && forall call :: call in order ==> call in s.deleting
    ensures var t := Play(c, s, Finishing(s, order)).0;
      && (forall call :: call in t.deleting <==> call in s.deleting && call !in order)
      && (forall call :: call in t.deleting ==> t.deleting[call] == s.deleting[call])
      && forall e :: e in t.users <==>
           e in s.users && forall i :: 0 <= i < |order| ==> s.deleting[order[i]] != s.users[e].id
    ensures forall e :: e in Play(c, s, Finishing(s, order)).0.users ==>
      e in s.users && Play(c, s, Finishing(s, order)).0.users[e] == s.users[e]
  {
    if order != [] {
      var n := |order| - 1;
      FinishedUsers(c, s, order[..n]);
      var moves := Finishing(s, order);
      assert moves[..n] == Finishing(s, order[..n]);
      OneFinished(Play(c, s, moves[..n]).0, order[n], s.deleting[order[n]]);
    }
  }

  lemma OneFinished(s: State, call: nat, id: nat)
    requires call in s.deleting && s.deleting[call] == id
    ensures var t := AfterRunDelete(s, call, id, World(0, false, false)).0;
      && t.deleting == s.deleting - {call}
      && t.users == map e | e in s.users && s.users[e].id != id :: s.users[e]
  {
  }

  lemma {:induction false} SomeOrder(calls: set<nat>) returns (order: seq<nat>)
    ensures Distinct(order) && forall call :: call in order <==> call in calls
  {
    order := [];
    if calls != {} {
      var call :| call in calls;
      order := SomeOrder(calls - {call});
      order := order + [call];
    }
  }

  /** Once every deletion past its guards has finished, someone is left exactly if there was a spare
      user. */
  lemma FinishedIffSpare(c: Crypto, s: State, order: seq<nat>)
    requires Distinct(order) && forall call :: call in order <==> call in s.deleting
    ensures Play(c, s, Finishing(s, order)).0.users != map[] <==> Spare(s, {})
  {
    FinishedUsers(c, s, order);
    var t := Play(c, s, Finishing(s, order)).0;
    if t.users != map[] {
      var e :| e in t.users;
      forall call | call in s.deleting ensures s.deleting[call] != s.users[e].id {
        var i :| 0 <= i < |order| && order[i] == call;
      }
      assert s.users[e].id !in s.deleting.Values + {};
    }
    if Spare(s, {}) {
      var e :| e in s.users && s.users[e].id !in s.deleting.Values + {};
      forall i | 0 <= i < |order| ensures s.deleting[order[i]] != s.users[e].id {
        assert order[i] in s.deleting;
      }
      assert e in t.users;
    }
  }

  /** The exact condition, over all interleavings: whatever runs next, short of new deletions, leaves
      a user, if and only if some user is not the target of a deletion past its guards. */
  lemma SomeoneStaysIff(c: Crypto, s: State)
    ensures Spare(s, {}) <==> forall moves :: NoNewDeletions(moves) ==> Play(c, s, moves).0.users != map[]
  {
    if Spare(s, {}) {
      forall moves | NoNewDeletions(moves) ensures Play(c, s, moves).0.users != map[] {
        SpareStays(c, s, moves);
      }
    } else {
      var order := SomeOrder(s.deleting.Keys);
      FinishedIffSpare(c, s, order);
      assert NoNewDeletions(Finishing(s, order));
    }
  }

  /** Every deletion that passed its guards found a spare user besides its target. */
  predicate GuardsSpared(c: Crypto, s: State, moves: seq<Move>) {
    moves == [] ||
    var n := |moves| - 1;
    var before := Play(c, s, moves[..n]).0;
    GuardsSpared(c, s, moves[..n])
    && (moves[n].request.DeleteUser? && Next(c, before, moves[n].request, moves[n].world).1 == GoesOn ==>
          exists e :: e in before.users && before.users[e].id !in before.deleting.Values + {moves[n].request.id})
  }

  lemma {:induction false} SparedRunKeepsAdmin(c: Crypto, s: State, moves: seq<Move>)
    requires Spare(s, {}) && GuardsSpared(c, s, moves)
    ensures Spare(Play(c, s, moves).0, {}) && Play(c, s, moves).0.users != map[]
  {
    if moves != [] {
      var n := |moves| - 1;
      SparedRunKeepsAdmin(c, s, moves[..n]);
      var before := Play(c, s, moves[..n]).0;
      if moves[n].request.DeleteUser? && Next(c, before, moves[n].request, moves[n].world).1 == GoesOn {
        assert Spare(before, {moves[n].request.id});
      }
      OneRequestSpares(c, before, moves[n]);
    }
  }

  /** One pass of the guards is safe exactly if it leaves a spare user: else what is under way can
      empty the table. */
  lemma GuardIsSafeIff(c: Crypto, s: State, call: nat, raw: string, id: nat, w: World)
    requires Next(c, s, DeleteUser(call, raw, id), w).1 == GoesOn
    ensures var t := Next(c, s, DeleteUser(call, raw, id), w).0;
      Spare(s, {id}) <==> forall moves :: NoNewDeletions(moves) ==> Play(c, t, moves).0.users != map[]
  {
    var t := Next(c, s, DeleteUser(call, raw, id), w).0;
    SomeoneStaysIff(c, t);
    assert t.users == s.users && t.deleting == s.deleting[call := id] && call !in s.deleting;
    assert t.deleting.Values == s.deleting.Values + {id} by {
      forall x ensures x in t.deleting.Values <==> x in s.deleting.Values + {id} {
        if x in s.deleting.Values { var k :| k in s.deleting && s.deleting[k] == x; assert t.deleting[k] == x; }
        if x == id { assert t.deleting[call] == x; }
      }
    }
    assert t.deleting.Values + {} == s.deleting.Values + {id};
  }

  /** No deletion starts while another is past its guards. */
  predicate OneAtATime(c: Crypto, s: State, moves: seq<Move>) {
    moves == [] ||
    var n := |moves| - 1;
    OneAtATime(c, s, moves[..n]) && (moves[n].request.DeleteUser? ==> Play(c, s, moves[..n]).0.deleting == map[])
  }

  lemma GuardSparesAlone(s: State, id: nat)
    requires Sound(s) && s.deleting == map[] && |s.users| > 1
    ensures exists e :: e in s.users && s.users[e].id !in s.deleting.Values + {id}
  {
    var e :| e in s.users;
    var others := s.users.Keys - {e};
    assert |others| > 0;
    var f :| f in others;
    assert s.users[e].id != s.users[f].id;
    assert s.deleting.Values == {};
    assert s.users[e].id !in s.deleting.Values + {id} || s.users[f].id !in s.deleting.Values + {id};
  }

  lemma {:induction false} OneAtATimeSpares(c: Crypto, s: State, moves: seq<Move>)
    requires Sound(s) && OneAtATime(c, s, moves)
    ensures GuardsSpared(c, s, moves)
  {
    if moves != [] {
      var n := |moves| - 1;
      OneAtATimeSpares(c, s, moves[..n]);
      RunKeepsSound(c, s, moves[..n]);
      var before := Play(c, s, moves[..n]).0;
      if moves[n].request.DeleteUser? && Next(c, before, moves[n].request, moves[n].world).1 == GoesOn {
        GuardSparesAlone(before, moves[n].request.id);
      }
    }
  }

  /** With one deletion at a time a table with a user in it never becomes empty, whatever else is
      interleaved. */
  lemma NeverWithoutAdmin(c: Crypto, s: State, moves: seq<Move>)
    requires Sound(s) && s.users != map[] && s.deleting == map[] && OneAtATime(c, s, moves)
    ensures Play(c, s, moves).0.users != map[]
  {
    var e :| e in s.users;
    assert s.deleting.Values == {};
    assert s.users[e].id !in s.deleting.Values + {};
    OneAtATimeSpares(c, s, moves);
    SparedRunKeepsAdmin(c, s, moves);
  }

  lemma BothPassTheGuards(c: Crypto, s: State, w: World)
    requires s.deleting == map[] && w == World(0, false, false) && |s.users| > 1
    requires CurrentUser(c, s, "one", 0) == Some(1) && CurrentUser(c, s, "two", 0) == Some(2)
    ensures var t := Next(c, s, DeleteUser(1, "one", 2), w);
      && t == (s.(deleting := map[1 := 2]), GoesOn)
      && Next(c, t.0, DeleteUser(2, "two", 1), w) == (s.(deleting := map[1 := 2, 2 := 1]), GoesOn)
  {
    assert map[1 := 2][2 := 1] == map[1 := 2, 2 := 1];
  }

  lemma BothStatementsRun(c: Crypto, s: State, w: World)
    requires s.users == map["a@x" := User(1, ""), "b@x" := User(2, "")]
    requires s.deleting == map[1 := 2, 2 := 1] && w == World(0, false, false)
    ensures var t := Next(c, s, RunDelete(1, 2), w);
      && t.1 == Ok && t.0.users == map["a@x" := User(1, "")]
      && Next(c, t.0, RunDelete(2, 1), w).1 == Ok && Next(c, t.0, RunDelete(2, 1), w).0.users == map[]
  {
    assert s.users["b@x"].id == 2;
    var t := Next(c, s, RunDelete(1, 2), w).0;
    assert t.users == map["a@x" := User(1, "")];
    assert t.users["a@x"].id == 1;
  }

  lemma PlayFour(c: Crypto, s: State, k: Move, l: Move, m: Move, n: Move)
    ensures var t := Next(c, s, k.request, k.world);
      var u := Next(c, t.0, l.request, l.world);
      var v := Next(c, u.0, m.request, m.world);
      var x := Next(c, v.0, n.request, n.world);
      Play(c, s, [k, l, m, n]) == (x.0, [t.1, u.1, v.1, x.1])
  {
    PlayOne(c, s, [], k);
    assert [] + [k] == [k];
    PlayOne(c, s, [k], l);
    assert [k] + [l] == [k, l];
    PlayOne(c, s, [k, l], m);
    assert [k, l] + [m] == [k, l, m];
    PlayOne(c, s, [k, l, m], n);
    assert [k, l, m] + [n] == [k, l, m, n];
    var t := Next(c, s, k.request, k.world);
    var u := Next(c, t.0, l.request, l.world);
    var v := Next(c, u.0, m.request, m.world);
    var x := Next(c, v.0, n.request, n.world);
    assert Play(c, s, []) == (s, []);
    assert Play(c, s, [k]).1 == [t.1];
    assert Play(c, s, [k, l]).1 == [t.1, u.1];
    assert Play(c, s, [k, l, m]).1 == [t.1, u.1, v.1];
    assert Play(c, s, [k, l, m, n]).1 == [t.1, u.1, v.1, x.1];
  }

  /** Two at a time can empty it: two admins delete each other, and both pass the guards before
      either statement runs. */
  lemma RacingDeletionsEmptyTheTable(c: Crypto, s: State, w: World)
    requires s.users == map["a@x" := User(1, ""), "b@x" := User(2, "")] && s.deleting == map[]
    requires CurrentUser(c, s, "one", 0) == Some(1) && CurrentUser(c, s, "two", 0) == Some(2)
    requires w == World(0, false, false)
    ensures var (t, answers) := Play(c, s, [Move(DeleteUser(1, "one", 2), w), Move(DeleteUser(2, "two", 1), w),
                                           Move(RunDelete(1, 2), w), Move(RunDelete(2, 1), w)]);
      answers == [GoesOn, GoesOn, Ok, Ok] && t.users == map[]
  {
    assert s.users.Keys == {"a@x", "b@x"};
    assert |s.users.Keys| == 2;
    BothPassTheGuards(c, s, w);
    BothStatementsRun(c, s.(deleting := map[1 := 2, 2 := 1]), w);
    PlayFour(c, s, Move(DeleteUser(1, "one", 2), w), Move(DeleteUser(2, "two", 1), w),
             Move(RunDelete(1, 2), w), Move(RunDelete(2, 1), w));
  }
}
