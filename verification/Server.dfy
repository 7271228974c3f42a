/** The data server: downloads and uploads behind the token check, on whichever storage is in use,
    with reads recorded after the answer; and the admin operations that share its tables. */
module Server {
  import opened Wrappers
  import opened Names
  import opened Contract
  import opened Tokens
  import CacheStore

  // ---------------------------------------------------------------- the state

  /** A place where artifacts are kept: a directory, or a bucket and a prefix. */
  type Place = nat

  datatype Op =
    | Download(hash: string)
    | Upload(hash: string, length: int, body: Bytes)   // length: Content-Length, -1 when absent

  /** A request let through with its token: an upload whose length is still to be checked, a request
      past all checks, or one that holds a backend. */
  datatype Flight =
    | Vouched(op: Op, token: string)
    | Admitted(op: Op, token: string)
    | Holding(op: Op, token: string, place: Place)

  /** `live` is the place of the backend in use; `pending` holds the recordings whose goroutine has
      not finished. */
  datatype State = State(stores: map<Place, Artifacts>, live: Place, tokens: Table,
                         stats: CacheStore.ReadTable, flights: map<nat, Flight>,
                         pending: multiset<string>, maxEntryBytes: int)

  function At(stores: map<Place, Artifacts>, place: Place): Artifacts {
    if place in stores then stores[place] else map[]
  }

  // ---------------------------------------------------------------- transitions

  /** A handler takes one for its hash and token, an upload one for its length, and both one to take
      hold of the backend in use and one for the operation on it. Any other request may come in
      between. */
  datatype Request =
    | Arrive(call: nat, op: Op, token: string)
    | Measure(call: nat)
    | Hold(call: nat)
    | Serve(call: nat, op: Op, place: Place)
    | CreateToken(raw: string, scope: Scope)
    | RevokeToken(id: nat)
    | SwapBackend(place: Place)                   // a settings update moves the storage ...
    | SetMaxEntryBytes(limit: int)                // ... and then the size limit
    | DeleteEntry(place: Place, hash: string)     // a delete, a prune or a sweep removes an artifact ...
    | ClearStats(hash: string)                    // ... and then its statistics
    | FinishRecording(hash: string)               // the goroutine a download left behind

  /** The clock, and whether the database and the storage answer. */
  datatype World = World(now: int, dbFails: bool, storageFails: bool)

  datatype Answer =
    | Status(code: nat) | Hit(body: Bytes) | GoesOn | Issued(id: nat) | Succeeded | Errored | Nothing

  datatype Move = Move(request: Request, world: World)

  const OK: nat := 200
  const BAD_REQUEST: nat := 400
  const UNAUTHORIZED: nat := 401
  const FORBIDDEN: nat := 403
  const NOT_FOUND: nat := 404
  const CONFLICT: nat := 409
  const LENGTH_REQUIRED: nat := 411
  const TOO_LARGE: nat := 413
  const SERVER_ERROR: nat := 500

  function ScopeOf(op: Op): Scope {
    if op.Upload? then Write else Read
  }

  /** The answer when authorization does not let the request through. */
  function Rejection(v: Verdict): Option<Answer> {
    if v.err then Some(Status(SERVER_ERROR))
    else if !v.valid then Some(Status(UNAUTHORIZED))
    else if !v.allowed then Some(Status(FORBIDDEN))
    else None
  }

  /** The answer when the request is not let through. */
  function Refusal(d: Digest, t: Table, op: Op, token: string, w: World): Option<Answer> {
    if !ValidHash(op.hash) then Some(Status(BAD_REQUEST)) else Rejection(Decision(d, t, token, ScopeOf(op), w.dbFails))
  }

  function AfterArrive(d: Digest, s: State, call: nat, op: Op, token: string, w: World): (State, Answer) {
    if call in s.flights then (s, Nothing)
    else
      var t := if ValidHash(op.hash) then s.(tokens := Touched(d, s.tokens, token, w.now, w.dbFails)) else s;
      var refusal := Refusal(d, s.tokens, op, token, w);
      if refusal.Some? then (t, refusal.value)
      else (t.(flights := s.flights[call := if op.Upload? then Vouched(op, token) else Admitted(op, token)]), GoesOn)
  }

  /** The answer when the announced length does not fit. */
  function LengthRefusal(op: Op, limit: int): Option<Answer> {
    if op.Download? then None
    else if op.length <= 0 then Some(Status(LENGTH_REQUIRED))
    else if op.length > limit then Some(Status(TOO_LARGE))
    else None
  }

  function AfterMeasure(s: State, call: nat): (State, Answer) {
    if call !in s.flights || !s.flights[call].Vouched? then (s, Nothing)
    else
      var refusal := LengthRefusal(s.flights[call].op, s.maxEntryBytes);
      if refusal.Some? then (s.(flights := s.flights - {call}), refusal.value)
      else (s.(flights := s.flights[call := Admitted(s.flights[call].op, s.flights[call].token)]), GoesOn)
  }

  function AfterHold(s: State, call: nat): (State, Answer) {
    if call !in s.flights || !s.flights[call].Admitted? then (s, Nothing)
    else (s.(flights := s.flights[call := Holding(s.flights[call].op, s.flights[call].token, s.live)]), Succeeded)
  }

  /** What the storage answers and keeps. */
  function Performed(here: Artifacts, op: Op, w: World): (Artifacts, Answer) {
    if w.storageFails then (here, Status(SERVER_ERROR))
    else
      match op
      case Download(hash) => (here, if hash in here then Hit(here[hash]) else Status(NOT_FOUND))
      case Upload(hash, length, body) =>
        if hash in here then (here, Status(CONFLICT))
        else if 0 <= length <= |body| then (here[hash := body[..length]], Status(OK))
        else (here, Status(SERVER_ERROR))
  }

  predicate Holds(s: State, call: nat, op: Op, place: Place) {
    call in s.flights && s.flights[call].Holding? && s.flights[call].op == op && s.flights[call].place == place
  }

  function AfterServe(s: State, call: nat, op: Op, place: Place, w: World): (State, Answer) {
    if !Holds(s, call, op, place) then (s, Nothing)
    else
      var (here, a) := Performed(At(s.stores, place), op, w);
      (s.(stores := if a == Status(OK) then s.stores[place := here] else s.stores,
          flights := s.flights - {call},
          pending := if a.Hit? then s.pending + multiset{op.hash} else s.pending),
       a)
  }

  function AfterDelete(s: State, place: Place, hash: string, w: World): (State, Answer) {
    if w.storageFails then (s, Errored)
    else if hash !in At(s.stores, place) then (s, Status(NOT_FOUND))
    else (s.(stores := s.stores[place := At(s.stores, place) - {hash}]), Succeeded)
  }

  function AfterRecording(s: State, hash: string, w: World): (State, Answer) {
    if hash !in s.pending then (s, Nothing)
    else
      var t := s.(pending := s.pending - multiset{hash});
      if w.dbFails then (t, Errored) else (t.(stats := CacheStore.RecordRead(s.stats, hash, w.now)), Succeeded)
  }

  function Next(d: Digest, s: State, r: Request, w: World): (State, Answer) {
    match r
    case Arrive(call, op, token) => AfterArrive(d, s, call, op, token, w)
    case Measure(call) => AfterMeasure(s, call)
    case Hold(call) => AfterHold(s, call)
    case Serve(call, op, place) => AfterServe(s, call, op, place, w)
    case CreateToken(raw, scope) =>
      if w.dbFails then (s, Errored)
      else
        (s.(tokens := Inserted(s.tokens, scope, d.of(raw))),
         if d.of(raw) in s.tokens.rows then Status(CONFLICT) else Issued(s.tokens.nextId))
    case RevokeToken(id) =>
      if w.dbFails then (s, Errored)
      else
        (s.(tokens := Revoked(s.tokens, id, w.now)),
         if Revocable(s.tokens, id) then Succeeded else Status(NOT_FOUND))
    case SwapBackend(place) => (s.(live := place), Succeeded)
    case SetMaxEntryBytes(limit) => (s.(maxEntryBytes := limit), Succeeded)
    case DeleteEntry(place, hash) => AfterDelete(s, place, hash, w)
    case ClearStats(hash) =>
      if w.dbFails then (s, Errored) else (s.(stats := s.stats - {hash}), Succeeded)
    case FinishRecording(hash) => AfterRecording(s, hash, w)
  }

  /** The state after a run, and the answer to each of its requests. */
  function Play(d: Digest, s: State, moves: seq<Move>): (r: (State, seq<Answer>))
    ensures |r.1| == |moves|
  {
    if moves == [] then (s, [])
    else
      var n := |moves| - 1;
      var (t, answers) := Play(d, s, moves[..n]);
      var (u, a) := Next(d, t, moves[n].request, moves[n].world);
      (u, answers + [a])
  }

  // ---------------------------------------------------------------- a handler among others

  /** None of the moves belongs to the request `call`. */
  ghost predicate Apart(call: nat, moves: seq<Move>) {
    forall m :: m in moves ==> Foreign(call, m.request)
  }

  predicate Foreign(call: nat, r: Request) {
    (r.Arrive? || r.Measure? || r.Hold? || r.Serve?) ==> r.call != call
  }

  lemma ForeignKeepsFlight(d: Digest, s: State, m: Move, call: nat)
    requires Foreign(call, m.request) && call in s.flights
    ensures var t := Next(d, s, m.request, m.world).0; call in t.flights && t.flights[call] == s.flights[call]
  {
  }

  /** Whatever other requests do, one in flight stays as it is. */
  lemma {:induction false} OthersKeepFlight(d: Digest, s: State, moves: seq<Move>, call: nat)
    requires Apart(call, moves) && call in s.flights
    ensures var t := Play(d, s, moves).0; call in t.flights && t.flights[call] == s.flights[call]
  {
    if moves != [] {
      var n := |moves| - 1;
      OthersKeepFlight(d, s, moves[..n], call);
      ForeignKeepsFlight(d, Play(d, s, moves[..n]).0, moves[n], call);
    }
  }

  /** What both handlers end with: taking hold and the operation, each after moves of others. */
  function Finished(d: Digest, s: State, call: nat, op: Op, w: World, others: (seq<Move>, seq<Move>)): (State, Answer) {
    var t := Play(d, s, others.0).0;
    AfterServe(Play(d, AfterHold(t, call).0, others.1).0, call, op, t.live, w)
  }

  /** A whole download among other requests. */
  function Downloaded(d: Digest, s: State, call: nat, hash: string, token: string, worlds: (World, World),
                      others: (seq<Move>, seq<Move>)): (State, Answer)
  {
    var (t, a) := AfterArrive(d, s, call, Download(hash), token, worlds.0);
    if a != GoesOn then (t, a) else Finished(d, t, call, Download(hash), worlds.1, others)
  }

  /** A whole upload among other requests. */
  function Uploaded(d: Digest, s: State, call: nat, op: Op, token: string, worlds: (World, World),
                    others: (seq<Move>, seq<Move>, seq<Move>)): (State, Answer)
  {
    var (t, a) := AfterArrive(d, s, call, op, token, worlds.0);
    if a != GoesOn then (t, a)
    else
      var (u, b) := AfterMeasure(Play(d, t, others.0).0, call);
      if b != GoesOn then (u, b) else Finished(d, u, call, op, worlds.1, (others.1, others.2))
  }

  // ---------------------------------------------------------------- the objects

  datatype PutReply = Accepted | AlreadyExists | PutFailed

  /** `storage.Dynamic`: the places, each behind a backend that meets the contract, and the one in
      use. */
  class Dynamic {
    var stores: map<Place, Artifacts>
    var live: Place

    method Swap(next: Place)
      modifies this`live
      ensures live == next
    {
      live := next;
    }

    /** `Get` on the backend a request holds. */
    method Get(place: Place, hash: string, fails: bool) returns (found: bool, data: Bytes)
      ensures found <==> !fails && hash in At(stores, place)
      ensures found ==> data == At(stores, place)[hash]
    {
      found, data := false, [];
      if !fails && place in stores && hash in stores[place] {
        found, data := true, stores[place][hash];
      }
    }

    /** `Put` on the backend a request holds: stores exactly `size` bytes, or nothing. */
    method Put(place: Place, hash: string, body: Bytes, size: int, fails: bool) returns (r: PutReply)
      modifies this`stores
      ensures r.Accepted? <==> !fails && hash !in At(old(stores), place) && 0 <= size <= |body|
      ensures r.AlreadyExists? <==> !fails && hash in At(old(stores), place)
      ensures stores == if r.Accepted? && 0 <= size <= |body|
                        then old(stores)[place := At(old(stores), place)[hash := body[..size]]]
                        else old(stores)
    {
      var here := if place in stores then stores[place] else map[];
      if fails {
        return PutFailed;
      }
      if hash in here {
        return AlreadyExists;
      }
      if !(0 <= size <= |body|) {
        return PutFailed;
      }
      stores := stores[place := here[hash := body[..size]]];
      r := Accepted;
    }
  }

  /** The `cache_reads` table. */
  class ReadTracker {
    var table: CacheStore.ReadTable

    method RecordCacheRead(hash: string, now: int, fails: bool) returns (ok: bool)
      modifies this
      ensures ok == !fails
      ensures table == if ok then CacheStore.RecordRead(old(table), hash, now) else old(table)
    {
      ok := !fails;
      if ok {
        var count := if hash in table then table[hash].readCount + 1 else 1;
        table := table[hash := CacheStore.ReadStats(count, Some(now))];
      }
    }
  }

  class Server {
    const backend: Dynamic
    const tokens: Store
    const tracker: ReadTracker
    const digest: Digest
    var maxEntryBytes: int
    /** The requests and the recordings that are under way. */
    var flights: map<nat, Flight>
    var pending: multiset<string>

    constructor (backend: Dynamic, tokens: Store, tracker: ReadTracker, digest: Digest, maxEntryBytes: int)
      ensures this.backend == backend && this.tokens == tokens && this.tracker == tracker && this.digest == digest
      ensures this.maxEntryBytes == maxEntryBytes && flights == map[] && pending == multiset{}
    {
      this.backend, this.tokens, this.tracker, this.digest := backend, tokens, tracker, digest;
      this.maxEntryBytes, this.flights, this.pending := maxEntryBytes, map[], multiset{};
    }

    function Current(): State
      reads this, backend, tokens, tracker
    {
      State(backend.stores, backend.live, tokens.table, tracker.table, flights, pending, maxEntryBytes)
    }

    /** Other requests run. */
    method Others(moves: seq<Move>)
      modifies this, backend, tokens, tracker
      ensures Current() == Play(digest, old(Current()), moves).0
    {
      var s := Play(digest, Current(), moves).0;
      backend.stores, backend.live, tokens.table, tracker.table := s.stores, s.live, s.tokens, s.stats;
      flights, pending, maxEntryBytes := s.flights, s.pending, s.maxEntryBytes;
    }

    method SetMaxEntryBytes(n: int)
      modifies this`maxEntryBytes
      ensures maxEntryBytes == n
    {
      maxEntryBytes := n;
    }

    /** What a settings update does to the server: two transitions, with others in between. */
    method MoveStorage(place: Place, limit: int, others: seq<Move>, ghost w: World)
      modifies this, backend, tokens, tracker
      ensures var between := Play(digest, Next(digest, old(Current()), SwapBackend(place), w).0, others).0;
        Current() == Next(digest, between, Request.SetMaxEntryBytes(limit), w).0
    {
      backend.Swap(place);
      Others(others);
      SetMaxEntryBytes(limit);
    }

    /** The checks of both handlers up to the authorization. */
    method Authorized(hash: string, token: string, scope: Scope, w: World) returns (refused: Option<Answer>)
      modifies tokens
      ensures tokens.table == if ValidHash(hash) then Touched(digest, old(tokens.table), token, w.now, w.dbFails)
                              else old(tokens.table)
      ensures refused == if !ValidHash(hash) then Some(Status(BAD_REQUEST))
                         else Rejection(Decision(digest, old(tokens.table), token, scope, w.dbFails))
    {
      if !ValidHash(hash) {
        return Some(Status(BAD_REQUEST));
      }
      var v := Authorize(tokens, digest, token, scope, w.now, w.dbFails);
      if v.err {
        return Some(Status(SERVER_ERROR));
      }
      if !v.valid {
        return Some(Status(UNAUTHORIZED));
      }
      if !v.allowed {
        return Some(Status(FORBIDDEN));
      }
      refused := None;
    }

    /** Between the checks and the operation: other requests run, the request takes hold of the
        backend in use, and other requests run again. */
    method TakeHold(call: nat, others: (seq<Move>, seq<Move>)) returns (place: Place)
      requires call in flights && flights[call].Admitted?
      requires Apart(call, others.0) && Apart(call, others.1)
      modifies this, backend, tokens, tracker
      ensures var u := Play(digest, old(Current()), others.0).0;
        && place == u.live
        && Current() == Play(digest, AfterHold(u, call).0, others.1).0
      ensures call in flights && flights[call] == Holding(old(flights)[call].op, old(flights)[call].token, place)
    {
      OthersKeepFlight(digest, Current(), others.0, call);
      Others(others.0);
      place := backend.live;
      flights := flights[call := Holding(flights[call].op, flights[call].token, place)];
      OthersKeepFlight(digest, Current(), others.1, call);
      Others(others.1);
    }

    method HandleGet(call: nat, hash: string, token: string, worlds: (World, World), others: (seq<Move>, seq<Move>))
      returns (a: Answer)
      requires call !in flights && Apart(call, others.0) && Apart(call, others.1)
      modifies this, backend, tokens, tracker
      ensures (Current(), a) == Downloaded(digest, old(Current()), call, hash, token, worlds, others)
    {
      var refused := Authorized(hash, token, Read, worlds.0);
      if refused.Some? {
        return refused.value;
      }
      flights := flights[call := Admitted(Download(hash), token)];
      var place := TakeHold(call, others);
      var found, data := backend.Get(place, hash, worlds.1.storageFails);
      flights := flights - {call};
      if !found {
        return Status(if worlds.1.storageFails then SERVER_ERROR else NOT_FOUND);
      }
      pending := pending + multiset{hash};   // go func() { RecordCacheRead(...) }()
      a := Hit(data);
    }

    method HandlePut(call: nat, hash: string, token: string, length: int, body: Bytes,
                     worlds: (World, World), others: (seq<Move>, seq<Move>, seq<Move>))
      returns (a: Answer)
      requires call !in flights && Apart(call, others.0) && Apart(call, others.1) && Apart(call, others.2)
      modifies this, backend, tokens, tracker
      ensures (Current(), a) ==
        Uploaded(digest, old(Current()), call, Upload(hash, length, body), token, worlds, others)
    {
      var refused := Authorized(hash, token, Write, worlds.0);
      if refused.Some? {
        return refused.value;
      }
      flights := flights[call := Vouched(Upload(hash, length, body), token)];
      OthersKeepFlight(digest, Current(), others.0, call);
      Others(others.0);
      if length <= 0 {
        flights := flights - {call};
        return Status(LENGTH_REQUIRED);
      }
      if length > maxEntryBytes {
        flights := flights - {call};
        return Status(TOO_LARGE);
      }
      flights := flights[call := Admitted(Upload(hash, length, body), token)];
      a := StoreUpload(call, hash, length, body, worlds.1, (others.1, others.2));
    }

    /** The call of `Put` and the answer it leads to. */
    method StoreUpload(call: nat, hash: string, length: int, body: Bytes, w: World, others: (seq<Move>, seq<Move>))
      returns (a: Answer)
      requires call in flights && flights[call].Admitted? && flights[call].op == Upload(hash, length, body)
      requires Apart(call, others.0) && Apart(call, others.1)
      modifies this, backend, tokens, tracker
      ensures (Current(), a) == Finished(digest, old(Current()), call, Upload(hash, length, body), w, others)
    {
      var place := TakeHold(call, others);
      var r := backend.Put(place, hash, body, length, w.storageFails);
      flights := flights - {call};
      a := match r
        case Accepted => Status(OK)
        case AlreadyExists => Status(CONFLICT)
        case PutFailed => Status(SERVER_ERROR);
    }

    /** One of the goroutines of `HandleGet` runs. */
    method FinishRecording(hash: string, w: World)
      requires hash in pending
      modifies this`pending, tracker
      ensures Current() == AfterRecording(old(Current()), hash, w).0
    {
      var _ := tracker.RecordCacheRead(hash, w.now, w.dbFails);
      pending := pending - multiset{hash};
    }
  }
}
