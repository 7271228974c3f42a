/** Admin users and their sessions: the two tables, the session manager and the handlers. */
module Sessions {
  import opened Wrappers

  // ---------------------------------------------------------------- tables

  datatype User = User(id: nat, passwordHash: string)
  datatype Session = Session(userId: nat, expiresAt: int)

  /** Users by their unique email, the sequence of their ids, sessions by the hash of their raw
      id, the lifetime the next session gets, and whom the deletions past their guards are after. */
  datatype State = State(users: map<string, User>, nextId: nat, sessions: map<string, Session>, ttl: int,
                         deleting: map<nat, nat>)

  /** SHA-256 of a raw session id, and bcrypt's comparison of a hash with a password. */
  datatype Crypto = Crypto(digest: string -> string, verify: (string, string) -> bool)

  ghost predicate Injective(c: Crypto) {
    forall a, b :: c.digest(a) == c.digest(b) ==> a == b
  }

  predicate HasUser(s: State, id: nat) {
    exists e :: e in s.users && s.users[e].id == id
  }

  /** The schema's constraints: ids are unique and drawn from the sequence, and a session
      belongs to a user. */
  ghost predicate Sound(s: State) {
    && (forall e :: e in s.users ==> s.users[e].id < s.nextId)
    && (forall e, f :: e in s.users && f in s.users && s.users[e].id == s.users[f].id ==> e == f)
    && (forall x :: x in s.sessions ==> HasUser(s, s.sessions[x].userId))
  }

  // ---------------------------------------------------------------- the session manager

  /** `CurrentUser`: the user of a session that exists and has not expired. */
  function CurrentUser(c: Crypto, s: State, raw: string, now: int): Option<nat> {
    if raw == "" || c.digest(raw) !in s.sessions || s.sessions[c.digest(raw)].expiresAt <= now
       || !HasUser(s, s.sessions[c.digest(raw)].userId)
    then None
    else Some(s.sessions[c.digest(raw)].userId)
  }

  datatype Request =
    | Login(email: string, password: string, raw: string)   // raw: the id drawn for the session
    | Logout(raw: string)
    | WhoAmI(raw: string)
    | SetTTL(ttl: int)
    | CreateUser(raw: string, email: string, password: string, passwordHash: string)
    | DeleteUser(call: nat, raw: string, id: nat)           // up to the guards ...
    | RunDelete(call: nat, id: nat)                         // ... and then the statement

  /** The clock, and whether the session lookup and the statement after it fail. */
  datatype World = World(now: int, lookupFails: bool, dbFails: bool)

  datatype Answer = Ok | LoggedIn(id: nat) | IsUser(id: nat) | Status(code: nat) | GoesOn | Nothing

  datatype Move = Move(request: Request, world: World)

  const BAD_REQUEST: nat := 400
  const UNAUTHORIZED: nat := 401
  const NOT_FOUND: nat := 404
  const CONFLICT: nat := 409
  const SERVER_ERROR: nat := 500
  const MIN_PASSWORD: nat := 8

  /** What a protected handler starts with; any failure of the lookup reads as "not logged in". */
  function Authenticated(c: Crypto, s: State, raw: string, w: World): Option<nat> {
    if w.lookupFails then None else CurrentUser(c, s, raw, w.now)
  }

  function AfterLogin(c: Crypto, s: State, email: string, password: string, raw: string, w: World): (State, Answer) {
    if w.lookupFails then (s, Status(SERVER_ERROR))
    else if email !in s.users || !c.verify(s.users[email].passwordHash, password) then (s, Status(UNAUTHORIZED))
    else if w.dbFails || c.digest(raw) in s.sessions then (s, Status(SERVER_ERROR))
    else
      (s.(sessions := s.sessions[c.digest(raw) := Session(s.users[email].id, w.now + s.ttl)]),
       LoggedIn(s.users[email].id))
  }

  /** `DELETE FROM users`, which takes the user's sessions along. */
  function WithoutUser(s: State, id: nat): State {
    s.(users := map e | e in s.users && s.users[e].id != id :: s.users[e],
       sessions := map x | x in s.sessions && s.sessions[x].userId != id :: s.sessions[x])
  }

  function AfterCreateUser(s: State, email: string, password: string, passwordHash: string, w: World): (State, Answer) {
    if '@' !in email || |email| < 3 || |password| < MIN_PASSWORD then (s, Status(BAD_REQUEST))
    else if w.dbFails then (s, Status(SERVER_ERROR))
    else
      (s.(nextId := s.nextId + 1,
          users := if email in s.users then s.users else s.users[email := User(s.nextId, passwordHash)]),
       if email in s.users then Status(CONFLICT) else IsUser(s.nextId))
  }

  /** The guards of `handleDeleteUser`: not oneself, and not the last one. */
  function Guard(s: State, current: nat, id: nat): bool {
    id != current && |s.users| > 1
  }

  function AfterGuards(s: State, current: nat, call: nat, id: nat, w: World): (State, Answer) {
    if call in s.deleting then (s, Nothing)
    else if id == current then (s, Status(BAD_REQUEST))
    else if w.dbFails then (s, Status(SERVER_ERROR))
    else if !Guard(s, current, id) then (s, Status(BAD_REQUEST))
    else (s.(deleting := s.deleting[call := id]), GoesOn)
  }

  function AfterRunDelete(s: State, call: nat, id: nat, w: World): (State, Answer) {
    if call !in s.deleting || s.deleting[call] != id then (s, Nothing)
    else
      var t := s.(deleting := s.deleting - {call});
      if w.dbFails then (t, Status(SERVER_ERROR))
      else if !HasUser(s, id) then (t, Status(NOT_FOUND))
      else (WithoutUser(t, id), Ok)
  }

  predicate IsProtected(r: Request) {
    !r.Login? && !r.SetTTL? && !r.RunDelete?
  }

  function AfterProtected(c: Crypto, s: State, r: Request, current: nat, w: World): (State, Answer)
    requires IsProtected(r)
  {
    match r
    case WhoAmI(_) => (s, IsUser(current))
    case Logout(raw) => (if w.dbFails then s else s.(sessions := s.sessions - {c.digest(raw)}), Ok)
    case CreateUser(_, email, password, passwordHash) => AfterCreateUser(s, email, password, passwordHash, w)
    case DeleteUser(call, _, id) => AfterGuards(s, current, call, id, w)
  }

  function Next(c: Crypto, s: State, r: Request, w: World): (State, Answer) {
    if r.Login? then AfterLogin(c, s, r.email, r.password, r.raw, w)
    else if r.SetTTL? then (s.(ttl := r.ttl), Ok)
    else if r.RunDelete? then AfterRunDelete(s, r.call, r.id, w)
    else
      var current := Authenticated(c, s, r.raw, w);
      if current.None? then (s, Status(UNAUTHORIZED)) else AfterProtected(c, s, r, current.value, w)
  }

  /** The state after a run, and the answer to each of its requests. */
  function Play(c: Crypto, s: State, moves: seq<Move>): (r: (State, seq<Answer>))
    ensures |r.1| == |moves|
  {
    if moves == [] then (s, [])
    else
      var n := |moves| - 1;
      var (t, answers) := Play(c, s, moves[..n]);
      var (u, a) := Next(c, t, moves[n].request, moves[n].world);
      (u, answers + [a])
  }

  /** None of the moves belongs to the deletion `call`. */
  ghost predicate Apart(call: nat, moves: seq<Move>) {
    forall m :: m in moves ==> Foreign(call, m.request)
  }

  predicate Foreign(call: nat, r: Request) {
    (r.DeleteUser? || r.RunDelete?) ==> r.call != call
  }

  lemma ForeignKeepsDeletion(c: Crypto, s: State, m: Move, call: nat)
    requires Foreign(call, m.request) && call in s.deleting
    ensures var t := Next(c, s, m.request, m.world).0; call in t.deleting && t.deleting[call] == s.deleting[call]
  {
  }

  lemma {:induction false} OthersKeepDeletion(c: Crypto, s: State, moves: seq<Move>, call: nat)
    requires Apart(call, moves) && call in s.deleting
    ensures var t := Play(c, s, moves).0; call in t.deleting && t.deleting[call] == s.deleting[call]
  {
    if moves != [] {
      var n := |moves| - 1;
      OthersKeepDeletion(c, s, moves[..n], call);
      ForeignKeepsDeletion(c, Play(c, s, moves[..n]).0, moves[n], call);
    }
  }

  /** A whole deletion, with the moves of others between its guards and its statement. */
  function Deleted(c: Crypto, s: State, call: nat, raw: string, id: nat, worlds: (World, World),
                   others: seq<Move>): (State, Answer) {
    var (t, a) := Next(c, s, DeleteUser(call, raw, id), worlds.0);
    if a != GoesOn then (t, a) else AfterRunDelete(Play(c, t, others).0, call, id, worlds.1)
  }

  // ---------------------------------------------------------------- the constraints are kept

  lemma LoginKeepsSound(c: Crypto, s: State, email: string, password: string, raw: string, w: World)
    requires Sound(s)
    ensures Sound(AfterLogin(c, s, email, password, raw, w).0)
  {
    var t := AfterLogin(c, s, email, password, raw, w).0;
    assert t.users == s.users;
    forall x | x in t.sessions ensures HasUser(t, t.sessions[x].userId) {
      if x in s.sessions {
        assert HasUser(s, s.sessions[x].userId);
      }
    }
  }

  /** The cascade leaves no session behind. */
  lemma WithoutUserKeepsSound(s: State, id: nat)
    requires Sound(s)
    ensures Sound(WithoutUser(s, id))
    ensures !HasUser(WithoutUser(s, id), id)
    ensures forall x :: x in WithoutUser(s, id).sessions ==> WithoutUser(s, id).sessions[x].userId != id
  {
    var t := WithoutUser(s, id);
    forall x | x in t.sessions ensures HasUser(t, t.sessions[x].userId) {
      assert HasUser(s, s.sessions[x].userId);
      var e :| e in s.users && s.users[e].id == s.sessions[x].userId;
      assert t.users[e].id == t.sessions[x].userId;
    }
  }

  lemma RunDeleteKeepsSound(s: State, call: nat, id: nat, w: World)
    requires Sound(s)
    ensures Sound(AfterRunDelete(s, call, id, w).0)
  {
    var t := s.(deleting := s.deleting - {call});
    forall x | x in t.sessions ensures HasUser(t, t.sessions[x].userId) { assert HasUser(s, s.sessions[x].userId); }
    WithoutUserKeepsSound(t, id);
  }

  lemma CreateUserKeepsSound(s: State, email: string, password: string, passwordHash: string, w: World)
    requires Sound(s)
    ensures Sound(AfterCreateUser(s, email, password, passwordHash, w).0)
  {
    var t := AfterCreateUser(s, email, password, passwordHash, w).0;
    forall x | x in t.sessions ensures HasUser(t, t.sessions[x].userId) {
      assert HasUser(s, s.sessions[x].userId);
      var e :| e in s.users && s.users[e].id == s.sessions[x].userId;
      assert t.users[e].id == t.sessions[x].userId;
    }
  }

  lemma OtherRequestKeepsSound(c: Crypto, s: State, r: Request, w: World)
    requires Sound(s) && !r.Login? && !r.CreateUser? && !r.RunDelete?
    ensures Sound(Next(c, s, r, w).0)
  {
    var t := Next(c, s, r, w).0;
    assert t.users == s.users && t.nextId == s.nextId;
    forall x | x in t.sessions ensures HasUser(t, t.sessions[x].userId) {
      assert HasUser(s, s.sessions[x].userId);
    }
  }

  lemma OneRequestKeepsSound(c: Crypto, s: State, r: Request, w: World)
    requires Sound(s)
    ensures Sound(Next(c, s, r, w).0)
  {
    match r
    case Login(email, password, raw) => LoginKeepsSound(c, s, email, password, raw, w);
    case CreateUser(_, email, password, passwordHash) => CreateUserKeepsSound(s, email, password, passwordHash, w);
    case RunDelete(call, id) => RunDeleteKeepsSound(s, call, id, w);
    case _ => OtherRequestKeepsSound(c, s, r, w);
  }
}
