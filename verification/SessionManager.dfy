/** The session manager and the user handlers as objects over the two tables. */
module SessionManager {
  import opened Wrappers
  import opened Sessions

  class Store {
    var users: map<string, User>
    var nextId: nat
    var sessions: map<string, Session>
    /** The deletions that are past their guards. */
    var deleting: map<nat, nat>

    /** Fails when the id is taken, even by a session that has expired. */
    method CreateSession(idHash: string, userId: nat, expiresAt: int, fails: bool) returns (ok: bool)
      modifies this`sessions
      ensures ok <==> !fails && idHash !in old(sessions)
      ensures sessions == if ok then old(sessions)[idHash := Session(userId, expiresAt)] else old(sessions)
    {
      ok := !fails && idHash !in sessions;
      if ok {
        sessions := sessions[idHash := Session(userId, expiresAt)];
      }
    }

    method GetSession(idHash: string, now: int) returns (r: Option<Session>)
      ensures r == if idHash in sessions && now < sessions[idHash].expiresAt then Some(sessions[idHash]) else None
    {
      r := if idHash in sessions && sessions[idHash].expiresAt > now then Some(sessions[idHash]) else None;
    }

    method DeleteSession(idHash: string, fails: bool)
      modifies this`sessions
      ensures sessions == if fails then old(sessions) else old(sessions) - {idHash}
    {
      if !fails {
        sessions := sessions - {idHash};
      }
    }

    /** The id is drawn even when the email is taken. */
    method CreateUser(email: string, passwordHash: string) returns (id: Option<nat>)
      modifies this`users, this`nextId
      ensures nextId == old(nextId) + 1
      ensures id == if email in old(users) then None else Some(old(nextId))
      ensures users == if email in old(users) then old(users) else old(users)[email := User(old(nextId), passwordHash)]
    {
      id := Some(nextId);
      nextId := nextId + 1;
      if email in users {
        return None;
      }
      users := users[email := User(id.value, passwordHash)];
    }

    method DeleteUser(id: nat) returns (found: bool)
      modifies this`users, this`sessions
      ensures found <==> exists e :: e in old(users) && old(users)[e].id == id
      ensures users == map e | e in old(users) && old(users)[e].id != id :: old(users)[e]
      ensures found ==> sessions == map x | x in old(sessions) && old(sessions)[x].userId != id :: old(sessions)[x]
      ensures !found ==> users == old(users) && sessions == old(sessions)
    {
      found := exists e :: e in users && users[e].id == id;
      users := map e | e in users && users[e].id != id :: users[e];
      if found {
        sessions := map x | x in sessions && sessions[x].userId != id :: sessions[x];
      }
    }
  }

  class Manager {
    const store: Store
    const crypto: Crypto
    var ttl: int

    constructor (store: Store, crypto: Crypto, ttl: int)
      ensures this.store == store && this.crypto == crypto && this.ttl == ttl
    {
      this.store, this.crypto, this.ttl := store, crypto, ttl;
    }

    function Current(): State
      reads this, store
    {
      State(store.users, store.nextId, store.sessions, ttl, store.deleting)
    }

    method SetTTL(ttl: int)
      modifies this
      ensures Current() == old(Current()).(ttl := ttl)
    {
      this.ttl := ttl;
    }

    method Login(email: string, password: string, raw: string, w: World) returns (a: Answer)
      modifies store
      ensures (Current(), a) == AfterLogin(crypto, old(Current()), email, password, raw, w)
    {
      if w.lookupFails {
        return Status(SERVER_ERROR);
      }
      if email !in store.users {
        return Status(UNAUTHORIZED);
      }
      var u := store.users[email];
      if !crypto.verify(u.passwordHash, password) {
        return Status(UNAUTHORIZED);
      }
      var ok := store.CreateSession(crypto.digest(raw), u.id, w.now + ttl, w.dbFails);
      a := if ok then LoggedIn(u.id) else Status(SERVER_ERROR);
    }

    method Logout(raw: string, fails: bool)
      modifies store
      ensures Current() == if raw == "" || fails then old(Current())
                           else old(Current()).(sessions := old(store.sessions) - {crypto.digest(raw)})
    {
      if raw == "" {
        return;
      }
      store.DeleteSession(crypto.digest(raw), fails);
    }

    method CurrentUser(raw: string, now: int) returns (id: Option<nat>)
      ensures id == Sessions.CurrentUser(crypto, Current(), raw, now)
    {
      if raw == "" {
        return None;
      }
      var session := store.GetSession(crypto.digest(raw), now);
      if session.None? {
        return None;
      }
      var found := exists e :: e in store.users && store.users[e].id == session.value.userId;   // GetUserByID
      id := if found then Some(session.value.userId) else None;
    }
  }

  /** The protected handlers. */
  class AdminServer {
    const sessions: Manager

    constructor (sessions: Manager)
      ensures this.sessions == sessions
    {
      this.sessions := sessions;
    }

    method Protected(raw: string, w: World) returns (current: Option<nat>)
      ensures current == Authenticated(sessions.crypto, sessions.Current(), raw, w)
    {
      if w.lookupFails {
        return None;
      }
      current := sessions.CurrentUser(raw, w.now);
    }

    method HandleLogout(raw: string, w: World) returns (a: Answer)
      modifies sessions.store
      ensures (sessions.Current(), a) == Next(sessions.crypto, old(sessions.Current()), Request.Logout(raw), w)
    {
      var current := Protected(raw, w);
      if current.None? {
        return Status(UNAUTHORIZED);
      }
      sessions.Logout(raw, w.dbFails);   // an error is ignored
      a := Ok;
    }

    method HandleCreateUser(raw: string, email: string, password: string, passwordHash: string, w: World)
      returns (a: Answer)
      modifies sessions.store
      ensures (sessions.Current(), a) ==
        Next(sessions.crypto, old(sessions.Current()), Request.CreateUser(raw, email, password, passwordHash), w)
    {
      var current := Protected(raw, w);
      if current.None? {
        return Status(UNAUTHORIZED);
      }
      if '@' !in email || |email| < 3 {
        return Status(BAD_REQUEST);
      }
      if |password| < MIN_PASSWORD {
        return Status(BAD_REQUEST);
      }
      if w.dbFails {
        return Status(SERVER_ERROR);
      }
      var id := sessions.store.CreateUser(email, passwordHash);
      a := if id.Some? then IsUser(id.value) else Status(CONFLICT);
    }

    /** Other requests run. */
    method Others(moves: seq<Move>)
      modifies sessions, sessions.store
      ensures sessions.Current() == Play(sessions.crypto, old(sessions.Current()), moves).0
    {
      var s := Play(sessions.crypto, sessions.Current(), moves).0;
      var store := sessions.store;
      store.users, store.nextId, store.sessions, store.deleting := s.users, s.nextId, s.sessions, s.deleting;
      sessions.ttl := s.ttl;
    }

    /** `handleDeleteUser`: other requests may run between its guards and its statement. */
    method HandleDeleteUser(call: nat, raw: string, id: nat, worlds: (World, World), others: seq<Move>)
      returns (a: Answer)
      requires call !in sessions.store.deleting && Apart(call, others)
      modifies sessions, sessions.store
      ensures (sessions.Current(), a) ==
        Deleted(sessions.crypto, old(sessions.Current()), call, raw, id, worlds, others)
    {
      var store := sessions.store;
      var current := Protected(raw, worlds.0);
      if current.None? {
        return Status(UNAUTHORIZED);
      }
      if id == current.value {
        return Status(BAD_REQUEST);
      }
      if worlds.0.dbFails {
        return Status(SERVER_ERROR);
      }
      if |store.users| <= 1 {
        return Status(BAD_REQUEST);
      }
      store.deleting := store.deleting[call := id];
      OthersKeepDeletion(sessions.crypto, sessions.Current(), others, call);
      Others(others);
      store.deleting := store.deleting - {call};
      if worlds.1.dbFails {
        return Status(SERVER_ERROR);
      }
      var found := store.DeleteUser(id);
      a := if found then Ok else Status(NOT_FOUND);
    }
  }
}
