/** The S3 backend, one call at a time: a check and then a write, against keys under a prefix. */
module S3 {
  import opened Wrappers
  import opened Names
  import opened Contract
  import opened ObjectKeys

  datatype Reply = Ok | AlreadyExists | NotFound | Failed | Body(size: nat, data: Bytes)

  /** How the service treats one request: it answers, it refuses before doing anything, or the
      request takes effect and the answer is lost. */
  datatype Fault = Fine | Refuses | AnswerLost

  /** The artifacts of a bucket, by hash. */
  ghost function Held(prefix: string, bucket: map<string, Bytes>): Artifacts {
    map h | h in Universe() && ValidHash(h) && Key(prefix, h) in bucket :: bucket[Key(prefix, h)]
  }

  lemma ArtifactAt(prefix: string, bucket: map<string, Bytes>, hash: string)
    requires ValidHash(hash)
    ensures hash in Held(prefix, bucket) <==> Key(prefix, hash) in bucket
    ensures Key(prefix, hash) in bucket ==> Held(prefix, bucket)[hash] == bucket[Key(prefix, hash)]
  {
    assert hash in Universe();
  }

  /** Writing the key of one hash changes that artifact and no other. */
  lemma PutObjectIsUpdate(prefix: string, bucket: map<string, Bytes>, hash: string, data: Bytes)
    requires ValidHash(hash)
    ensures Held(prefix, bucket[Key(prefix, hash) := data]) == Held(prefix, bucket)[hash := data]
  {
    var after := bucket[Key(prefix, hash) := data];
    ArtifactAt(prefix, after, hash);
    forall h | h in Universe() && ValidHash(h) && h != hash ensures Key(prefix, h) != Key(prefix, hash) {
      if Key(prefix, h) == Key(prefix, hash) { KeyInjective(prefix, h, hash); }
    }
    assert Held(prefix, after) == Held(prefix, bucket)[hash := data];
  }

  /** The hash of this deployment that is kept under a key, if there is one. */
  ghost function Own(prefix: string, key: string): Option<string> {
    if exists h :: ValidHash(h) && Key(prefix, h) == key then
      var h :| ValidHash(h) && Key(prefix, h) == key;
      Some(h)
    else None
  }

  lemma OwnOfHash(prefix: string, hash: string)
    requires ValidHash(hash)
    ensures Own(prefix, Key(prefix, hash)) == Some(hash)
  {
    var h := Own(prefix, Key(prefix, hash)).value;
    KeyInjective(prefix, h, hash);
  }

  function Without(m: Artifacts, hash: Option<string>): Artifacts {
    if hash.Some? then m - {hash.value} else m
  }

  /** Deleting a key removes the artifact it keeps, if it keeps one of this deployment, and no other. */
  lemma DeleteObjectIsRemoval(prefix: string, bucket: map<string, Bytes>, key: string)
    ensures Held(prefix, bucket - {key}) == Without(Held(prefix, bucket), Own(prefix, key))
  {
    var after := bucket - {key};
    forall h | h in Universe() && ValidHash(h) ensures Key(prefix, h) == key <==> Own(prefix, key) == Some(h) {
      if Key(prefix, h) == key { OwnOfHash(prefix, h); }
    }
    assert Held(prefix, after) == Without(Held(prefix, bucket), Own(prefix, key));
  }

  /** Deployments that share a bucket are not isolated when one prefix covers the other: the listing
      of the one shows a name for an artifact of the other, and deleting that name removes it. */
  lemma DeleteReachesOther(prefix: string, other: string, bucket: map<string, Bytes>, hash: string)
    requires GoodPrefix(prefix) && GoodPrefix(other) && Covers(prefix, other) && prefix != other
    requires ValidHash(hash) && hash in Held(other, bucket)
    ensures var key := Key(other, hash);
      var name := Unkey(prefix, key);
      && key in bucket && Queried(prefix, key) && !ValidHash(name)
      && Held(other, bucket - {Key(prefix, name)}) == Held(other, bucket) - {hash}
      && Held(prefix, bucket - {Key(prefix, name)}) == Held(prefix, bucket)
  {
    var key := Key(other, hash);
    ArtifactAt(other, bucket, hash);
    ListingReachesIff(prefix, other, hash);
    ListedNameOfOther(prefix, other, hash);
    DeleteObjectIsRemoval(other, bucket, key);
    OwnOfHash(other, hash);
    DeleteObjectIsRemoval(prefix, bucket, key);
    if Own(prefix, key).Some? {
      PrefixesDisjoint(prefix, Own(prefix, key).value, other, hash);
    }
  }

  /** The valid hashes among the names `List` shows are exactly the artifacts, under a good prefix;
      and nothing of them is shown under any other. */
  lemma ListedAreArtifacts(prefix: string, bucket: map<string, Bytes>, hash: string)
    requires ValidHash(hash)
    ensures GoodPrefix(prefix) ==>
      (hash in Held(prefix, bucket) <==> exists k :: k in bucket && Queried(prefix, k) && Unkey(prefix, k) == hash)
    ensures !GoodPrefix(prefix) ==> !Queried(prefix, Key(prefix, hash))
  {
    ArtifactAt(prefix, bucket, hash);
    KeyRoundTrip(prefix, hash);
    if GoodPrefix(prefix) {
      forall k | k in bucket && Queried(prefix, k) && Unkey(prefix, k) == hash ensures k == Key(prefix, hash) {
        if prefix != "" {
          ValidHashIsSegment(hash);
          KeyShape(prefix, hash);
          assert k == prefix + "/" + hash;
        }
      }
    }
  }

  class S3 {
    const prefix: string
    var bucket: map<string, Bytes>
    /** The operations that took effect on this backend's own artifacts so far. */
    ghost var hist: seq<Event>

    ghost predicate Valid()
      reads this
    {
      Legal(hist) && Replay(hist) == Held(prefix, bucket)
    }

    /** Keys of other deployments in the same bucket stay as they are. */
    twostate predicate OthersKept(hash: string)
      reads this
    {
      forall k :: k != Key(prefix, hash) ==>
        (k in bucket <==> k in old(bucket)) && (k in bucket ==> bucket[k] == old(bucket)[k])
    }

    constructor (prefix: string, bucket: map<string, Bytes>)
      requires forall h :: ValidHash(h) ==> Key(prefix, h) !in bucket
      ensures this.prefix == prefix && this.bucket == bucket && hist == [] && Valid()
    {
      this.prefix, this.bucket, this.hist := prefix, bucket, [];
      assert Held(prefix, bucket) == map[];
    }

    method Exists(name: string, fails: bool) returns (err: bool, found: bool)
      ensures err == fails
      ensures !err ==> (found <==> Key(prefix, name) in bucket)
      ensures !err && ValidHash(name) ==> (found <==> name in Held(prefix, bucket))
    {
      if ValidHash(name) { ArtifactAt(prefix, bucket, name); }
      err := fails;
      found := !fails && Key(prefix, name) in bucket;
    }

    /** `Put`: as the contract has it, one call at a time. An upload cut short stores nothing; a
        failure leaves the artifacts as they were, or as if the upload had been confirmed. */
    method Put(call: nat, hash: string, payload: Bytes, size: nat, headFails: bool, fault: Fault) returns (r: Reply)
      requires Valid() && ValidHash(hash)
      modifies this
      ensures Valid() && OthersKept(hash)
      ensures r in {Ok, AlreadyExists, Failed}
      ensures r == Ok ==> size <= |payload| && hist == old(hist) + [Stored(call, hash, payload[..size])]
      ensures r == AlreadyExists ==> hist == old(hist) + [Refused(call, hash)]
      ensures r == Failed ==>
        (hist == old(hist)
         || (fault == AnswerLost && size <= |payload| && hist == old(hist) + [Stored(call, hash, payload[..size])]))
      ensures r == AlreadyExists <==> !headFails && hash in old(Held(prefix, bucket))
      ensures r == Ok <==> !headFails && hash !in old(Held(prefix, bucket)) && size <= |payload| && fault == Fine
    {
      ArtifactAt(prefix, bucket, hash);
      var err, found := Exists(hash, headFails);
      if err {
        return Failed;
      }
      if found {
        Extend(hist, Refused(call, hash));
        hist := hist + [Refused(call, hash)];
        return AlreadyExists;
      }
      if fault == Refuses || |payload| < size {   // the body has to match the announced length
        return Failed;
      }
      PutObjectIsUpdate(prefix, bucket, hash, payload[..size]);
      Extend(hist, Stored(call, hash, payload[..size]));
      bucket := bucket[Key(prefix, hash) := payload[..size]];
      hist := hist + [Stored(call, hash, payload[..size])];
      r := if fault == AnswerLost then Failed else Ok;
    }

    /** `Get`: the object's length and its bytes. */
    method Get(call: nat, hash: string, fails: bool) returns (r: Reply)
      requires Valid() && ValidHash(hash)
      modifies this`hist
      ensures Valid()
      ensures r == Failed <==> fails
      ensures r in {Failed, NotFound} || (r.Body? && r.size == |r.data|)
      ensures r == Failed ==> hist == old(hist)
      ensures r == NotFound ==> hist == old(hist) + [Missing(call, hash)]
      ensures r.Body? ==> hist == old(hist) + [Found(call, hash, r.data)]
    {
      ArtifactAt(prefix, bucket, hash);
      if fails {
        return Failed;
      }
      if Key(prefix, hash) !in bucket {
        Extend(hist, Missing(call, hash));
        hist := hist + [Missing(call, hash)];
        return NotFound;
      }
      var data := bucket[Key(prefix, hash)];
      Extend(hist, Found(call, hash, data));
      hist := hist + [Found(call, hash, data)];
      r := Body(|data|, data);
    }

    /** `Delete` takes any name, since the loops that delete pass on what a listing shows. What it
        removes is the object under the key of that name. */
    method Delete(call: nat, name: string, headFails: bool, fault: Fault) returns (r: Reply)
      requires Valid()
      modifies this
      ensures Valid() && OthersKept(name)
      ensures r in {Ok, NotFound, Failed}
      ensures r == NotFound <==> !headFails && Key(prefix, name) !in old(bucket)
      ensures r == Ok <==> !headFails && Key(prefix, name) in old(bucket) && fault == Fine
      ensures r == Ok ==> Key(prefix, name) !in bucket
      ensures var own := Own(prefix, Key(prefix, name));
        var removed := if own.Some? then [Removed(call, own.value)] else [];
        && (r == Ok ==> hist == old(hist) + removed)
        && (r == NotFound ==> hist == old(hist) + if own.Some? then [NothingToRemove(call, own.value)] else [])
        && (r == Failed ==> hist == old(hist) || (fault == AnswerLost && hist == old(hist) + removed))
      ensures ValidHash(name) ==> Own(prefix, Key(prefix, name)) == Some(name)
    {
      ghost var own := Own(prefix, Key(prefix, name));
      if ValidHash(name) { OwnOfHash(prefix, name); }
      if own.Some? { ArtifactAt(prefix, bucket, own.value); }
      var err, found := Exists(name, headFails);
      if err {
        return Failed;
      }
      if !found {
        if own.Some? {
          Extend(hist, NothingToRemove(call, own.value));
          hist := hist + [NothingToRemove(call, own.value)];
        }
        return NotFound;
      }
      if fault == Refuses {
        return Failed;
      }
      DeleteObjectIsRemoval(prefix, bucket, Key(prefix, name));
      if own.Some? {
        Extend(hist, Removed(call, own.value));
        hist := hist + [Removed(call, own.value)];
      }
      bucket := bucket - {Key(prefix, name)};
      r := if fault == AnswerLost then Failed else Ok;
    }
  }
}
