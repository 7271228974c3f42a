/** The tokens table and the decision it supports: who may read and who may write. */
module Tokens {
  import opened Wrappers

  datatype Scope = Read | Write

  datatype Token = Token(id: nat, scope: Scope, lastUsedAt: Option<int>, revokedAt: Option<int>)

  /** Rows by token hash, which the table keeps unique, and the sequence the ids come from. */
  datatype Table = Table(rows: map<string, Token>, nextId: nat)

  /** SHA-256 of a raw token, of which only injectivity is ever relied on. */
  datatype Digest = Digest(of: string -> string)

  ghost predicate Injective(d: Digest) {
    forall a, b :: d.of(a) == d.of(b) ==> a == b
  }

  /** The assumption can be met. */
  lemma InjectiveDigestExists(d: Digest)
    requires d == Digest(raw => raw + raw)
    ensures Injective(d)
  {
    forall a, b | d.of(a) == d.of(b) ensures a == b {
      assert |a + a| == |b + b|;
      assert a == (a + a)[..|a|] && b == (b + b)[..|b|];
    }
  }

  predicate Active(t: Table, digest: string) {
    digest in t.rows && t.rows[digest].revokedAt.None?
  }

  // ---------------------------------------------------------------- what the statements do

  /** `INSERT INTO tokens`; the id is drawn even when the hash is taken. */
  function Inserted(t: Table, scope: Scope, digest: string): Table {
    Table(if digest in t.rows then t.rows else t.rows[digest := Token(t.nextId, scope, None, None)], t.nextId + 1)
  }

  /** `UPDATE tokens SET revoked_at = now() WHERE id = $1 AND revoked_at IS NULL`. */
  function Revoked(t: Table, id: nat, now: int): Table {
    t.(rows := map d | d in t.rows ::
         if t.rows[d].id == id && t.rows[d].revokedAt.None? then t.rows[d].(revokedAt := Some(now)) else t.rows[d])
  }

  predicate Revocable(t: Table, id: nat) {
    exists d :: d in t.rows && t.rows[d].id == id && t.rows[d].revokedAt.None?
  }

  /** `UPDATE tokens SET last_used_at = now() WHERE token_hash = $1 AND revoked_at IS NULL`. */
  function Used(t: Table, digest: string, now: int): Table {
    if Active(t, digest) then t.(rows := t.rows[digest := t.rows[digest].(lastUsedAt := Some(now))]) else t
  }

  // ---------------------------------------------------------------- the store

  datatype Reply = Done(token: Token) | Conflict | NotFound | Failed
  datatype Revocation = Ended | Unknown | Broken

  class Store {
    var table: Table

    constructor ()
      ensures table == Table(map[], 1)
    {
      table := Table(map[], 1);
    }

    method CreateToken(scope: Scope, digest: string, fails: bool) returns (r: Reply)
      modifies this
      ensures table == if fails then old(table) else Inserted(old(table), scope, digest)
      ensures r == if fails then Failed else if digest in old(table.rows) then Conflict
                   else Done(Token(old(table.nextId), scope, None, None))
    {
      if fails {
        return Failed;
      }
      var id := table.nextId;
      table := table.(nextId := id + 1);
      if digest in table.rows {
        return Conflict;
      }
      table := table.(rows := table.rows[digest := Token(id, scope, None, None)]);
      r := Done(table.rows[digest]);
    }

    method RevokeToken(id: nat, now: int, fails: bool) returns (r: Revocation)
      modifies this
      ensures table == if fails then old(table) else Revoked(old(table), id, now)
      ensures r == if fails then Broken else if Revocable(old(table), id) then Ended else Unknown
    {
      if fails {
        return Broken;
      }
      r := if Revocable(table, id) then Ended else Unknown;   // by the number of rows affected
      table := Revoked(table, id, now);
    }

    method Authenticate(digest: string, now: int, fails: bool) returns (r: Reply)
      modifies this
      ensures table == if fails then old(table) else Used(old(table), digest, now)
      ensures r == if fails then Failed else if Active(old(table), digest) then Done(table.rows[digest]) else NotFound
    {
      if fails {
        return Failed;
      }
      if digest !in table.rows || table.rows[digest].revokedAt.Some? {
        return NotFound;
      }
      table := table.(rows := table.rows[digest := table.rows[digest].(lastUsedAt := Some(now))]);
      r := Done(table.rows[digest]);
    }
  }

  // ---------------------------------------------------------------- authorization

  datatype Verdict = Verdict(valid: bool, allowed: bool, err: bool)

  /** The decision for a raw token: a write token may read too, a read token never writes. */
  function Decision(d: Digest, t: Table, raw: string, scope: Scope, fails: bool): Verdict {
    if raw == "" then Verdict(false, false, false)
    else if fails then Verdict(false, false, true)
    else if !Active(t, d.of(raw)) then Verdict(false, false, false)
    else Verdict(true, scope == Read || t.rows[d.of(raw)].scope == Write, false)
  }

  /** The table after that decision. */
  function Touched(d: Digest, t: Table, raw: string, now: int, fails: bool): Table {
    if raw == "" || fails then t else Used(t, d.of(raw), now)
  }

  method Authorize(authn: Store, d: Digest, raw: string, scope: Scope, now: int, fails: bool) returns (v: Verdict)
    modifies authn
    ensures v == Decision(d, old(authn.table), raw, scope, fails)
    ensures authn.table == Touched(d, old(authn.table), raw, now, fails)
  {
    if raw == "" {
      return Verdict(false, false, false);
    }
    var r := authn.Authenticate(d.of(raw), now, fails);
    if r.NotFound? {
      return Verdict(false, false, false);
    }
    if r.Failed? {
      return Verdict(false, false, true);
    }
    if scope == Write {
      return Verdict(true, r.token.scope == Write, false);
    }
    v := Verdict(true, true, false);
  }

  // ---------------------------------------------------------------- the table over time

  /** Ids name one row and were all drawn from the sequence. */
  ghost predicate Sound(t: Table) {
    && (forall d :: d in t.rows ==> t.rows[d].id < t.nextId)
    && (forall d, e :: d in t.rows && e in t.rows && t.rows[d].id == t.rows[e].id ==> d == e)
  }

  predicate RowKept(t: Table, u: Table, d: string)
    requires d in t.rows
  {
    && d in u.rows && u.rows[d].id == t.rows[d].id && u.rows[d].scope == t.rows[d].scope
    && (t.rows[d].revokedAt.Some? ==> u.rows[d].revokedAt == t.rows[d].revokedAt)
  }

  /** Rows are never deleted, and keep their id, their scope and their revocation. */
  ghost predicate Grown(t: Table, u: Table) {
    t.nextId <= u.nextId && forall d :: d in t.rows ==> RowKept(t, u, d)
  }

  lemma InsertKeeps(t: Table, scope: Scope, digest: string)
    requires Sound(t)
    ensures Sound(Inserted(t, scope, digest)) && Grown(t, Inserted(t, scope, digest))
  {
  }

  lemma RevokeKeeps(t: Table, id: nat, now: int)
    requires Sound(t)
    ensures Sound(Revoked(t, id, now)) && Grown(t, Revoked(t, id, now))
  {
  }

  lemma UseKeeps(t: Table, digest: string, now: int)
    requires Sound(t)
    ensures Sound(Used(t, digest, now)) && Grown(t, Used(t, digest, now))
  {
  }

  /** Using an active token stamps its row and no other. */
  lemma UseStamps(t: Table, digest: string, now: int, other: string)
    requires Active(t, digest)
    ensures var u := Used(t, digest, now);
      && digest in u.rows && u.rows[digest] == t.rows[digest].(lastUsedAt := Some(now))
      && (other != digest ==> (other in u.rows <==> other in t.rows))
      && (other != digest && other in t.rows ==> u.rows[other] == t.rows[other])
  {
  }

  /** Revoking an id ends exactly the token it was issued for. */
  lemma RevocationIsExact(t: Table, digest: string, now: int, other: string)
    requires Sound(t) && Active(t, digest)
    ensures var u := Revoked(t, t.rows[digest].id, now);
      && digest in u.rows && u.rows[digest] == t.rows[digest].(revokedAt := Some(now)) && !Active(u, digest)
      && (other != digest ==> (Active(u, other) <==> Active(t, other)))
  {
  }
}
