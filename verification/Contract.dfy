/** The `Backend` contract as an atomic put-if-absent map: what each call may answer,
    what it changes, and what every history of such calls satisfies. */
module Contract {

  newtype byte = b: int | 0 <= b < 256
  type Bytes = seq<byte>
  type Artifacts = map<string, Bytes>

  /** One call taking effect, with the identity of the call and its answer. */
  datatype Event =
    | Stored(call: nat, hash: string, data: Bytes)     // Put returns nil
    | Refused(call: nat, hash: string)                 // Put returns ErrAlreadyExists
    | Found(call: nat, hash: string, data: Bytes)      // Get returns a reader
    | Missing(call: nat, hash: string)                 // Get returns ErrNotFound
    | Removed(call: nat, hash: string)                 // Delete returns nil
    | NothingToRemove(call: nat, hash: string)         // Delete returns ErrNotFound

  predicate Allows(m: Artifacts, e: Event) {
    match e
    case Stored(_, h, _) => h !in m
    case Refused(_, h) => h in m
    case Found(_, h, data) => h in m && m[h] == data
    case Missing(_, h) => h !in m
    case Removed(_, h) => h in m
    case NothingToRemove(_, h) => h !in m
  }

  function Effect(m: Artifacts, e: Event): Artifacts {
    match e
    case Stored(_, h, data) => m[h := data]
    case Removed(_, h) => m - {h}
    case _ => m
  }

  function Replay(hist: seq<Event>): Artifacts {
    if hist == [] then map[] else Effect(Replay(hist[..|hist| - 1]), hist[|hist| - 1])
  }

  predicate Legal(hist: seq<Event>) {
    hist == [] || (Legal(hist[..|hist| - 1]) && Allows(Replay(hist[..|hist| - 1]), hist[|hist| - 1]))
  }

  lemma Extend(hist: seq<Event>, e: Event)
    ensures Replay(hist + [e]) == Effect(Replay(hist), e)
    ensures Legal(hist + [e]) <==> Legal(hist) && Allows(Replay(hist), e)
  {
    assert (hist + [e])[..|hist|] == hist;
  }

  lemma {:induction false} LegalAt(hist: seq<Event>, i: nat)
    requires Legal(hist) && i < |hist|
    ensures Legal(hist[..i]) && Allows(Replay(hist[..i]), hist[i])
  {
    if i < |hist| - 1 {
      LegalAt(hist[..|hist| - 1], i);
      assert hist[..|hist| - 1][..i] == hist[..i];
    }
  }

  // ---------------------------------------------------------------- coherence

  predicate Changes(e: Event, hash: string) {
    (e.Stored? || e.Removed?) && e.hash == hash
  }

  /** `hist[j]` stored the artifact of `hash` that is current at the end of `hist`. */
  predicate LatestStore(hist: seq<Event>, hash: string, j: int) {
    0 <= j < |hist| && hist[j].Stored? && hist[j].hash == hash
    && forall k :: j < k < |hist| ==> !Changes(hist[k], hash)
  }

  /** The map a history leaves holds, for each hash, the upload with no later removal. */
  lemma {:induction false} ReplayIsLatestStore(hist: seq<Event>, hash: string)
    ensures hash in Replay(hist) <==> exists j :: LatestStore(hist, hash, j)
    ensures forall j :: LatestStore(hist, hash, j) ==> hash in Replay(hist) && Replay(hist)[hash] == hist[j].data
  {
    if hist != [] {
      var n := |hist| - 1;
      var front, last := hist[..n], hist[n];
      ReplayIsLatestStore(front, hash);
      if Changes(last, hash) {
        assert last.Stored? ==> LatestStore(hist, hash, n);
        assert forall j :: LatestStore(hist, hash, j) ==> j == n;
      } else {
        forall j ensures LatestStore(hist, hash, j) <==> LatestStore(front, hash, j) {
          assert forall k :: 0 <= k < n ==> front[k] == hist[k];
        }
        assert forall j :: LatestStore(front, hash, j) ==> front[j] == hist[j];
      }
    }
  }

  /** Every successful read returns the bytes of the latest upload of that hash with no
      removal in between, and a miss means there is no such upload. */
  lemma ReadsAreCoherent(hist: seq<Event>, i: nat)
    requires Legal(hist) && i < |hist|
    ensures hist[i].Found? ==>
      exists j :: LatestStore(hist[..i], hist[i].hash, j) && hist[j].data == hist[i].data
    ensures hist[i].Missing? ==> forall j :: !LatestStore(hist[..i], hist[i].hash, j)
  {
    LegalAt(hist, i);
    ReplayIsLatestStore(hist[..i], hist[i].hash);
    if hist[i].Found? {
      var j :| LatestStore(hist[..i], hist[i].hash, j);
      assert hist[..i][j] == hist[j];
    }
  }

  // ---------------------------------------------------------------- conservation

  function Stores(hist: seq<Event>, hash: string): nat {
    if hist == [] then 0
    else
      var last := hist[|hist| - 1];
      Stores(hist[..|hist| - 1], hash) + (if last.Stored? && last.hash == hash then 1 else 0)
  }

  function Removals(hist: seq<Event>, hash: string): nat {
    if hist == [] then 0
    else
      var last := hist[|hist| - 1];
      Removals(hist[..|hist| - 1], hash) + (if last.Removed? && last.hash == hash then 1 else 0)
  }

  lemma {:induction false} Conservation(hist: seq<Event>, hash: string)
    requires Legal(hist)
    ensures Stores(hist, hash) == Removals(hist, hash) + (if hash in Replay(hist) then 1 else 0)
  {
    if hist != [] {
      Conservation(hist[..|hist| - 1], hash);
    }
  }
}
