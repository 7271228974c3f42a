/** What every run of `Load` and `Apply` keeps, whichever stages fail. */
module SettingsRuns {
  import opened Wrappers
  import opened Durations
  import opened Settings

  // ---------------------------------------------------------------- agreement

  /** The same configuration, apart from who updated it when, and parts of a second of the TTL. */
  predicate SameBut(s: Settings, t: Settings, ttl: int) {
    s.(updatedAt := t.updatedAt, updatedBy := t.updatedBy, sessionTTL := ttl) == t
  }

  /** What whole seconds leave of a duration. */
  function Cut(d: int): int {
    FromSeconds(ToSeconds(d))
  }

  predicate SetWhenText(x: Secret) {
    x.isSet <==> x.text != ""
  }

  predicate FlagsTrue(s: Settings) {
    SetWhenText(s.s3AccessKeyID) && SetWhenText(s.s3SecretAccessKey) && SetWhenText(s.gcsCredentialsJSON)
  }

  /** No secret of the row is an encryption of the empty string. */
  predicate Clean(enc: Encryptor, row: AppSettings) {
    forall b :: b in [row.s3AccessKeyIDEnc, row.s3SecretAccessKeyEnc, row.gcsCredentialsJSONEnc] && b.Some? ==>
      enc.decrypt(b.value) != Some("")
  }

  /** The four copies in memory describe one configuration. */
  predicate MemoryAgrees(live: Live) {
    var s := live.current;
    && live.backend == Some(Build(s)) && live.ttl == s.sessionTTL && live.limit == s.maxCacheEntryBytes
    && Int64(s.sessionTTL) && FlagsTrue(s)
  }

  /** The row can be decrypted, fits its table, and holds no encrypted empty secret. */
  predicate RowSound(enc: Encryptor, row: AppSettings) {
    Decrypt(enc, row).Some? && Clean(enc, row) && Storable(row)
  }

  /** The row, once decrypted, describes `s` to the second. */
  predicate RowDescribes(enc: Encryptor, row: AppSettings, s: Settings)
    requires Decrypt(enc, row).Some?
  {
    SameBut(s, Decrypt(enc, row).value, Cut(s.sessionTTL))
  }

  /** All five copies describe one configuration. */
  predicate Agree(enc: Encryptor, live: Live) {
    MemoryAgrees(live) && RowSound(enc, live.row) && RowDescribes(enc, live.row, live.current)
  }

  /** The three flags mean "configured" after `Load` if and only if the row is clean. */
  lemma LoadedFlags(enc: Encryptor, row: AppSettings)
    requires Decrypt(enc, row).Some?
    ensures FlagsTrue(Decrypt(enc, row).value) <==> Clean(enc, row)
  {
    var blobs := [row.s3AccessKeyIDEnc, row.s3SecretAccessKeyEnc, row.gcsCredentialsJSONEnc];
    assert blobs[0] in blobs && blobs[1] in blobs && blobs[2] in blobs;
  }

  lemma SealedOpens(enc: Encryptor, x: Secret, nonce: nat)
    requires Lawful(enc) && SetWhenText(x)
    ensures Opened(enc, Sealed(enc, x.text, nonce)) == Some(x)
    ensures Sealed(enc, x.text, nonce).Some? ==> enc.decrypt(Sealed(enc, x.text, nonce).value) != Some("")
  {
    assert enc.decrypt(enc.encrypt(x.text, nonce)) == Some(x.text);
  }

  /** Round trip of the stored row: decrypting what was encrypted for storage gives the settings
      back, with the TTL cut to whole seconds, and the row is clean. */
  lemma StorageRoundTrip(enc: Encryptor, s: Settings, nonces: Nonces, now: int, author: int)
    requires Lawful(enc) && FlagsTrue(s)
    ensures var raw := EncryptForStorage(enc, s, nonces, now, author);
      && Decrypt(enc, raw).Some? && Clean(enc, raw)
      && Decrypt(enc, raw).value
         == s.(sessionTTL := Cut(s.sessionTTL), updatedAt := now, updatedBy := Some(author))
  {
    SealedOpens(enc, s.s3AccessKeyID, nonces.id);
    SealedOpens(enc, s.s3SecretAccessKey, nonces.key);
    SealedOpens(enc, s.gcsCredentialsJSON, nonces.gcs);
  }

  lemma CutIsStable(seconds: int)
    requires -0x8000_0000 <= seconds < 0x8000_0000
    ensures FromSeconds(seconds) == seconds * SECOND && Cut(FromSeconds(seconds)) == FromSeconds(seconds)
  {
    SecondsRoundTrip(seconds);
  }

  /** Whatever sound row `Load` finds, the five copies agree once it succeeds. */
  lemma LoadAgrees(enc: Encryptor, row: AppSettings, w: World)
    requires Loaded(enc, row, w).Some? && RowSound(enc, row)
    ensures Agree(enc, Loaded(enc, row, w).value)
  {
    LoadedFlags(enc, row);
    CutIsStable(row.sessionTTLSeconds);
  }

  // ---------------------------------------------------------------- one update

  /** Every stage of `Apply` before the statement, and what the statement refuses by itself: a TTL
      that overflows its column. */
  predicate Reaches(next: Settings, w: World) {
    && Valid(next) && w.builds && w.answers(Build(next)) && Encrypts(next, w)
    && ToSeconds(next.sessionTTL) < 0x8000_0000 && Int64(next.maxCacheEntryBytes)
  }

  /** The row was written, but `Apply` was told otherwise. */
  predicate Lost(next: Settings, w: World) {
    Reaches(next, w) && w.persists.AnswerLost?
  }

  lemma StatementAccepts(enc: Encryptor, s: Settings, w: World, author: int)
    requires Valid(s) && Int64(s.sessionTTL)
    ensures Storable(EncryptForStorage(enc, s, w.nonces, w.now, author)) <==>
      ToSeconds(s.sessionTTL) < 0x8000_0000 && Int64(s.maxCacheEntryBytes)
  {
  }

  /** Which stages decide what `Apply` answers and changes. */
  lemma ApplyStages(enc: Encryptor, live: Live, input: ApplyInput, w: World)
    requires Int64(input.sessionTTL)
    ensures var (after, r) := After(enc, live, input, w);
      var next := Merge(live.current, input);
      && (r.Applied? <==> Reaches(next, w) && w.persists.Takes?)
      && (!r.Applied? ==> after == live.(row := after.row) && (!Lost(next, w) ==> after == live))
      && (r.Applied? || Lost(next, w) ==>
            after.row == EncryptForStorage(enc, next, w.nonces, w.now, input.updatedBy) && Storable(after.row))
  {
    var next := Merge(live.current, input);
    if Valid(next) { StatementAccepts(enc, next, w, input.updatedBy); }
  }

  lemma MergeFlags(s: Settings, input: ApplyInput)
    requires FlagsTrue(s)
    ensures FlagsTrue(Merge(s, input))
  {
  }

  /** One `Apply`, whichever stage fails: it succeeds exactly if every stage does, and then the five
      copies agree on the validated merge of the request, with a backend that has answered the
      probe; a failed one changes none of them, unless its statement took effect and the answer was
      lost, and then only the row. */
  lemma ApplyAgrees(enc: Encryptor, live: Live, input: ApplyInput, w: World)
    requires Lawful(enc) && MemoryAgrees(live) && RowSound(enc, live.row) && Int64(input.sessionTTL)
    ensures var (after, r) := After(enc, live, input, w);
      var next := Merge(live.current, input);
      && (r.Applied? <==> Reaches(next, w) && w.persists.Takes?)
      && (r.Applied? ==> Agree(enc, after) && Valid(after.current) && w.answers(after.backend.value))
      && (r.Applied? ==> SameBut(after.current, next, input.sessionTTL))
      && (!r.Applied? && !Lost(next, w) ==> after == live)
      && (Lost(next, w) ==> after == live.(row := after.row) && RowSound(enc, after.row)
                            && RowDescribes(enc, after.row, next) && w.answers(Build(next)) && Valid(next))
  {
    var next := Merge(live.current, input);
    ApplyStages(enc, live, input, w);
    MergeFlags(live.current, input);
    StorageRoundTrip(enc, next, w.nonces, w.now, input.updatedBy);
  }

  /** The same configuration to the second. */
  predicate SameToTheSecond(s: Settings, t: Settings) {
    SameBut(s, t.(sessionTTL := Cut(t.sessionTTL)), Cut(s.sessionTTL))
  }

  /** A lost answer breaks the agreement, exactly if the request asks for something new. */
  lemma LostAnswerSplits(enc: Encryptor, live: Live, input: ApplyInput, w: World)
    requires Lawful(enc) && Agree(enc, live) && Int64(input.sessionTTL) && Lost(Merge(live.current, input), w)
    ensures Agree(enc, After(enc, live, input, w).0) <==> SameToTheSecond(live.current, Merge(live.current, input))
  {
    ApplyStages(enc, live, input, w);
    MergeFlags(live.current, input);
    StorageRoundTrip(enc, Merge(live.current, input), w.nonces, w.now, input.updatedBy);
    ApplyAgrees(enc, live, input, w);
  }

  /** The answer never carries a secret, and shows which ones are configured. */
  predicate Hidden(shown: Secret, kept: Secret) {
    shown == Secret("", kept.text != "")
  }

  lemma AnswerIsRedacted(enc: Encryptor, live: Live, input: ApplyInput, w: World)
    requires Lawful(enc) && MemoryAgrees(live) && RowSound(enc, live.row) && Int64(input.sessionTTL)
    ensures var (after, r) := After(enc, live, input, w);
      && (r.Applied? ==> Hidden(r.shown.s3AccessKeyID, after.current.s3AccessKeyID))
      && (r.Applied? ==> Hidden(r.shown.s3SecretAccessKey, after.current.s3SecretAccessKey))
      && (r.Applied? ==> Hidden(r.shown.gcsCredentialsJSON, after.current.gcsCredentialsJSON))
  {
    ApplyAgrees(enc, live, input, w);
  }

  // ---------------------------------------------------------------- what one call does, field by field

  /** A request the admin may make: its kind of storage has what it needs, and both limits are positive. */
  predicate Acceptable(input: ApplyInput) {
    && input.sessionTTL > 0 && input.maxCacheEntryBytes > 0
    && match input.storageBackend
       case "local" => input.localDir != ""
       case "s3" => input.s3Bucket != ""
       case "gcs" => input.gcsBucket != ""
       case _ => false
  }

  /** What becomes of one secret of a request. */
  function Kept(before: Secret, supplied: Option<string>): string {
    match supplied
    case None => before.text
    case Some(text) => text
  }

  /** The client a request stands for, with the secrets it supplies or keeps. */
  predicate ClientOf(b: Backend, live: Settings, input: ApplyInput) {
    match b
    case Local(dir) => input.storageBackend == "local" && dir == input.localDir
    case S3(bucket, region, prefix, endpoint, usePathStyle, id, key) =>
      && input.storageBackend == "s3" && bucket == input.s3Bucket && region == input.s3Region
      && prefix == input.s3Prefix && endpoint == input.s3Endpoint && usePathStyle == input.s3UsePathStyle
      && id == Kept(live.s3AccessKeyID, input.s3AccessKeyID)
      && key == Kept(live.s3SecretAccessKey, input.s3SecretAccessKey)
    case GCS(bucket, prefix, credentials) =>
      && input.storageBackend == "gcs" && bucket == input.gcsBucket && prefix == input.gcsPrefix
      && credentials == Kept(live.gcsCredentialsJSON, input.gcsCredentialsJSON)
  }

  /** The client of the request answers the probe. */
  ghost predicate ClientAnswers(w: World, live: Settings, input: ApplyInput) {
    exists b :: ClientOf(b, live, input) && w.answers(b)
  }

  /** There is nothing to encrypt, or it can be encrypted. */
  predicate CanEncrypt(w: World, live: Settings, input: ApplyInput) {
    w.encrypts
    || (Kept(live.s3AccessKeyID, input.s3AccessKeyID) == ""
        && Kept(live.s3SecretAccessKey, input.s3SecretAccessKey) == ""
        && Kept(live.gcsCredentialsJSON, input.gcsCredentialsJSON) == "")
  }

  /** The plain columns of the row are the requested ones. */
  predicate RowShows(row: AppSettings, input: ApplyInput) {
    && row.storageBackend == input.storageBackend && row.localDir == input.localDir
    && row.s3Bucket == input.s3Bucket && row.s3Region == input.s3Region && row.s3Prefix == input.s3Prefix
    && row.s3Endpoint == input.s3Endpoint && row.s3UsePathStyle == input.s3UsePathStyle
    && row.gcsBucket == input.gcsBucket && row.gcsPrefix == input.gcsPrefix
    && row.maxCacheEntryBytes == input.maxCacheEntryBytes && row.updatedBy == Some(input.updatedBy)
  }

  /** `Apply`, field by field: it is refused as invalid exactly for a request that is not acceptable or
      whose client cannot be made or does not answer, and applied exactly if moreover its secrets can be
      encrypted and the statement takes the row. When it is applied, the backend in use is the client of
      the request, and the row, the memory and the answer show the request. */
  lemma ApplyDoesRequest(enc: Encryptor, live: Live, input: ApplyInput, w: World)
    requires Int64(input.sessionTTL)
    ensures var (after, r) := After(enc, live, input, w);
      && (r.Invalid? <==> !(Acceptable(input) && w.builds && ClientAnswers(w, live.current, input)))
      && (r.Applied? <==>
            && Acceptable(input) && w.builds && ClientAnswers(w, live.current, input)
            && CanEncrypt(w, live.current, input) && w.persists.Takes?
            && ToSeconds(input.sessionTTL) < 0x8000_0000 && Int64(input.maxCacheEntryBytes))
      && (r.Applied? ==> after.backend.Some? && ClientOf(after.backend.value, live.current, input))
      && (r.Applied? ==> w.answers(after.backend.value))
      && (r.Applied? ==> RowShows(after.row, input) && after.row.sessionTTLSeconds == ToSeconds(input.sessionTTL))
      && (r.Applied? ==> Shows(after.current, input, false) && Shows(r.shown, input, false))
      && (r.Applied? ==> after.ttl == input.sessionTTL && after.limit == input.maxCacheEntryBytes)
  {
    if Acceptable(input) {
      assert ClientOf(Build(Merge(live.current, input)), live.current, input);
    }
    ApplyStages(enc, live, input, w);
  }

  /** A stored secret as text: nothing for NULL. */
  predicate Holds(enc: Encryptor, blob: Option<string>, text: string) {
    match blob
    case None => text == ""
    case Some(b) => enc.decrypt(b) == Some(text)
  }

  /** The client a stored row stands for. */
  predicate ClientOfRow(enc: Encryptor, b: Backend, row: AppSettings) {
    match b
    case Local(dir) => row.storageBackend == "local" && dir == row.localDir
    case S3(bucket, region, prefix, endpoint, usePathStyle, id, key) =>
      && row.storageBackend == "s3" && bucket == row.s3Bucket && region == row.s3Region
      && prefix == row.s3Prefix && endpoint == row.s3Endpoint && usePathStyle == row.s3UsePathStyle
      && Holds(enc, row.s3AccessKeyIDEnc, id) && Holds(enc, row.s3SecretAccessKeyEnc, key)
    case GCS(bucket, prefix, credentials) =>
      && row.storageBackend == "gcs" && bucket == row.gcsBucket && prefix == row.gcsPrefix
      && Holds(enc, row.gcsCredentialsJSONEnc, credentials)
  }

  predicate Readable(enc: Encryptor, blob: Option<string>) {
    blob.Some? ==> enc.decrypt(blob.value).Some?
  }

  /** `Load`, field by field: it works exactly if the row can be read, each stored secret decrypted, and
      the client made; and then the backend in use is the client of the row, and memory shows the row. */
  lemma LoadDoesRow(enc: Encryptor, row: AppSettings, w: World)
    requires Storable(row)
    ensures Loaded(enc, row, w).Some? <==>
      w.readable && w.builds && Readable(enc, row.s3AccessKeyIDEnc) && Readable(enc, row.s3SecretAccessKeyEnc)
      && Readable(enc, row.gcsCredentialsJSONEnc)
    ensures Loaded(enc, row, w).Some? ==>
      var live := Loaded(enc, row, w).value;
      var s := live.current;
      && live.row == row && live.backend.Some? && ClientOfRow(enc, live.backend.value, row)
      && s.storageBackend == row.storageBackend && s.localDir == row.localDir
      && s.s3Bucket == row.s3Bucket && s.s3Region == row.s3Region && s.s3Prefix == row.s3Prefix
      && s.s3Endpoint == row.s3Endpoint && s.s3UsePathStyle == row.s3UsePathStyle
      && s.gcsBucket == row.gcsBucket && s.gcsPrefix == row.gcsPrefix
      && Holds(enc, row.s3AccessKeyIDEnc, s.s3AccessKeyID.text)
      && Holds(enc, row.s3SecretAccessKeyEnc, s.s3SecretAccessKey.text)
      && Holds(enc, row.gcsCredentialsJSONEnc, s.gcsCredentialsJSON.text)
      && live.ttl == row.sessionTTLSeconds * SECOND && live.limit == row.maxCacheEntryBytes
  {
    CutIsStable(row.sessionTTLSeconds);
  }

  /** A TTL of 2147483648 seconds passes validation and every other stage, and fails to persist. */
  lemma LongTTLFailsToPersist(enc: Encryptor, live: Live, input: ApplyInput, w: World)
    requires input.sessionTTL == FromSeconds(0x8000_0000)
    requires input.storageBackend == "local" && input.localDir != "" && 0 < input.maxCacheEntryBytes < TWO_63
    requires w.builds && w.answers(Local(input.localDir)) && w.encrypts && w.persists.Takes?
    ensures Valid(Merge(live.current, input)) && After(enc, live, input, w) == (live, InternalError)
  {
    assert FromSeconds(0x8000_0000) == 0x8000_0000 * SECOND;
    assert ToSeconds(0x8000_0000 * SECOND) == 0x8000_0000;
    ApplyStages(enc, live, input, w);
  }

  // ---------------------------------------------------------------- runs

  datatype Call = Update(input: ApplyInput, world: World) | Restart(world: World)

  function Perform(enc: Encryptor, live: Live, call: Call): Live {
    match call
    case Update(input, w) => After(enc, live, input, w).0
    case Restart(w) => if Loaded(enc, live.row, w).Some? then Loaded(enc, live.row, w).value else live
  }

  predicate Applies(enc: Encryptor, live: Live, call: Call) {
    call.Update? && After(enc, live, call.input, call.world).1.Applied?
  }

  predicate Loses(live: Live, call: Call) {
    call.Update? && Lost(Merge(live.current, call.input), call.world)
  }

  function Run(enc: Encryptor, live: Live, calls: seq<Call>): Live {
    if calls == [] then live
    else
      var n := |calls| - 1;
      Perform(enc, Run(enc, live, calls[..n]), calls[n])
  }

  /** Durations are 64-bit, and a restart that fails leaves no server to run on. */
  predicate SaneCall(call: Call) {
    match call
    case Update(input, _) => Int64(input.sessionTTL)
    case Restart(w) => w.readable && w.builds
  }

  ghost predicate Sane(calls: seq<Call>) {
    forall c :: c in calls ==> SaneCall(c)
  }

  /** The last answer lost, if any, was followed by a success or a restart. */
  predicate Settled(enc: Encryptor, live: Live, calls: seq<Call>) {
    calls == [] ||
    var n := |calls| - 1;
    var before := Run(enc, live, calls[..n]);
    calls[n].Restart? || Applies(enc, before, calls[n]) || (!Loses(before, calls[n]) && Settled(enc, live, calls[..n]))
  }

  lemma OneCall(enc: Encryptor, live: Live, call: Call)
    requires Lawful(enc) && MemoryAgrees(live) && RowSound(enc, live.row) && SaneCall(call)
    ensures var after := Perform(enc, live, call);
      && MemoryAgrees(after) && RowSound(enc, after.row)
      && (call.Restart? || Applies(enc, live, call) ==> Agree(enc, after))
      && (call.Update? && !Applies(enc, live, call) && !Loses(live, call) ==> after == live)
  {
    match call
    case Update(input, w) => ApplyAgrees(enc, live, input, w);
    case Restart(w) => LoadAgrees(enc, live.row, w);
  }

  /** Over any run of updates and restarts, whichever stages fail: the copies in memory agree and
      the row is sound; and all five agree once the last lost answer is settled. */
  lemma {:induction false} RunAgrees(enc: Encryptor, live: Live, calls: seq<Call>)
    requires Lawful(enc) && Agree(enc, live) && Sane(calls)
    ensures var after := Run(enc, live, calls);
      && MemoryAgrees(after) && RowSound(enc, after.row)
      && (Settled(enc, live, calls) ==> Agree(enc, after))
  {
    if calls != [] {
      var n := |calls| - 1;
      RunAgrees(enc, live, calls[..n]);
      assert calls[n] in calls && SaneCall(calls[n]);
      OneCall(enc, Run(enc, live, calls[..n]), calls[n]);
    }
  }

  // ---------------------------------------------------------------- what stays valid

  /** Valid, and still valid after a restart. */
  predicate Lasting(s: Settings) {
    Valid(s) && s.sessionTTL >= SECOND
  }

  ghost predicate NoFractions(calls: seq<Call>) {
    forall c :: c in calls ==> c.Update? ==> c.input.sessionTTL <= 0 || c.input.sessionTTL >= SECOND
  }

  lemma LastingRow(enc: Encryptor, row: AppSettings, s: Settings)
    requires Decrypt(enc, row).Some? && RowDescribes(enc, row, s) && Lasting(s) && Int64(s.sessionTTL)
    ensures Lasting(Decrypt(enc, row).value)
  {
    assert ToSeconds(s.sessionTTL) >= 1;
    QuotientBound(s.sessionTTL);
    assert Cut(s.sessionTTL) == ToSeconds(s.sessionTTL) * SECOND;
  }

  lemma OneCallLasts(enc: Encryptor, live: Live, call: Call)
    requires Lawful(enc) && MemoryAgrees(live) && RowSound(enc, live.row) && SaneCall(call)
    requires Lasting(live.current) && Lasting(Decrypt(enc, live.row).value)
    requires call.Update? ==> call.input.sessionTTL <= 0 || call.input.sessionTTL >= SECOND
    ensures var after := Perform(enc, live, call);
      Decrypt(enc, after.row).Some? && Lasting(after.current) && Lasting(Decrypt(enc, after.row).value)
  {
    OneCall(enc, live, call);
    if call.Update? {
      ApplyAgrees(enc, live, call.input, call.world);
      var after := Perform(enc, live, call);
      if Applies(enc, live, call) {
        LastingRow(enc, after.row, after.current);
      } else if Loses(live, call) {
        LastingRow(enc, after.row, Merge(live.current, call.input));
      }
    }
  }

  /** Whatever is live or stored stays valid over any run, as long as no request asks for a fraction
      of a second; `Load` does not validate, so it has to start that way. */
  lemma {:induction false} RunStaysValid(enc: Encryptor, live: Live, calls: seq<Call>)
    requires Lawful(enc) && Agree(enc, live) && Sane(calls) && NoFractions(calls)
    requires Lasting(live.current)
    ensures var after := Run(enc, live, calls);
      Decrypt(enc, after.row).Some? && Lasting(after.current) && Lasting(Decrypt(enc, after.row).value)
  {
    if calls == [] {
      LastingRow(enc, live.row, live.current);
    } else {
      var n := |calls| - 1;
      RunAgrees(enc, live, calls[..n]);
      RunStaysValid(enc, live, calls[..n]);
      assert calls[n] in calls && SaneCall(calls[n]);
      OneCallLasts(enc, Run(enc, live, calls[..n]), calls[n]);
    }
  }

  // ---------------------------------------------------------------- which backends are used

  /** Some update of the run was told by `b` that it answers. */
  predicate Probed(calls: seq<Call>, b: Backend) {
    exists k :: 0 <= k < |calls| && calls[k].Update? && calls[k].world.answers(b)
  }

  lemma ProbedLater(calls: seq<Call>, b: Backend)
    requires calls != [] && Probed(calls[..|calls| - 1], b)
    ensures Probed(calls, b)
  {
    var k :| 0 <= k < |calls| - 1 && calls[..|calls| - 1][k].Update? && calls[..|calls| - 1][k].world.answers(b);
    assert calls[k].world.answers(b);
  }

  /** The backend a server works with, before and after any restart, is the one it started with or
      has answered the `List` of an update. */
  lemma {:induction false} LiveBackendAnswered(enc: Encryptor, live: Live, calls: seq<Call>)
    requires Lawful(enc) && Agree(enc, live) && Sane(calls)
    ensures var after := Run(enc, live, calls);
      && after.backend.Some? && (after.backend == live.backend || Probed(calls, after.backend.value))
      && Decrypt(enc, after.row).Some?
      && var stored := Build(Decrypt(enc, after.row).value);
      Some(stored) == live.backend || Probed(calls, stored)
  {
    if calls != [] {
      var n := |calls| - 1;
      var before := Run(enc, live, calls[..n]);
      RunAgrees(enc, live, calls[..n]);
      LiveBackendAnswered(enc, live, calls[..n]);
      assert calls[n] in calls && SaneCall(calls[n]);
      if Probed(calls[..n], before.backend.value) { ProbedLater(calls, before.backend.value); }
      var kept := Build(Decrypt(enc, before.row).value);
      if Probed(calls[..n], kept) { ProbedLater(calls, kept); }
      OneCallProbes(enc, before, calls[n]);
      var after := Run(enc, live, calls);
      if calls[n].Update? && calls[n].world.answers(after.backend.value) { assert Probed(calls, after.backend.value); }
      var stored := Build(Decrypt(enc, after.row).value);
      if calls[n].Update? && calls[n].world.answers(stored) { assert Probed(calls, stored); }
    }
  }

  lemma OneCallProbes(enc: Encryptor, live: Live, call: Call)
    requires Lawful(enc) && MemoryAgrees(live) && RowSound(enc, live.row) && SaneCall(call)
    ensures var after := Perform(enc, live, call);
      && after.backend.Some? && Decrypt(enc, after.row).Some?
      && (call.Restart? ==> after.row == live.row && after.backend == Some(Build(Decrypt(enc, live.row).value)))
      && (call.Update? ==> after.backend == live.backend || call.world.answers(after.backend.value))
      && (call.Update? ==> after.row == live.row || call.world.answers(Build(Decrypt(enc, after.row).value)))
  {
    OneCall(enc, live, call);
    if call.Update? {
      ApplyAgrees(enc, live, call.input, call.world);
    }
  }

  // ---------------------------------------------------------------- restarts

  /** What a restart reproduces, who updated the settings when left aside. */
  predicate SameLive(a: Live, b: Live) {
    && a.row == b.row && a.backend == b.backend && a.ttl == b.ttl && a.limit == b.limit
    && SameBut(a.current, b.current, a.current.sessionTTL)
  }

  lemma CutPositive(d: int)
    requires Int64(d)
    ensures Cut(d) > 0 <==> d >= SECOND
  {
    QuotientBound(d);
    assert Cut(d) == ToSeconds(d) * SECOND;
  }

  lemma RestartOf(enc: Encryptor, live: Live, w: World)
    requires Agree(enc, live) && w.readable && w.builds
    ensures Loaded(enc, live.row, w).Some?
    ensures var again := Loaded(enc, live.row, w).value;
      && Agree(enc, again)
      && again.backend == live.backend && again.limit == live.limit && again.ttl == Cut(live.ttl)
      && (SameLive(live, again) <==> live.ttl % SECOND == 0)
      && (Valid(live.current) ==> (Valid(again.current) <==> live.ttl >= SECOND))
  {
    LoadAgrees(enc, live.row, w);
    WholeSeconds(live.ttl);
    CutPositive(live.ttl);
  }

  /** Restart equivalence. After any settled run, a fresh `Load` that finds the row and can build its
      backend succeeds, agrees, and reproduces the live state exactly if the live TTL is a whole
      number of seconds; the backend and the size limit it reproduces in any case. What was valid
      is so again exactly if the TTL is at least a second. */
  lemma RestartEquivalence(enc: Encryptor, live: Live, calls: seq<Call>, w: World)
    requires Lawful(enc) && Agree(enc, live) && Sane(calls) && Settled(enc, live, calls)
    requires w.readable && w.builds
    ensures var after := Run(enc, live, calls);
      && Loaded(enc, after.row, w).Some?
      && var again := Loaded(enc, after.row, w).value;
      && Agree(enc, again)
      && again.backend == after.backend && again.limit == after.limit && again.ttl == Cut(after.ttl)
      && (SameLive(after, again) <==> after.ttl % SECOND == 0)
      && (Valid(after.current) ==> (Valid(again.current) <==> after.ttl >= SECOND))
  {
    RunAgrees(enc, live, calls);
    RestartOf(enc, Run(enc, live, calls), w);
  }

  /** After a lost answer a restart comes up with the request that was reported as failed. */
  lemma RestartTakesLostRequest(enc: Encryptor, live: Live, input: ApplyInput, w: World, again: World)
    requires Lawful(enc) && Agree(enc, live) && Int64(input.sessionTTL) && Lost(Merge(live.current, input), w)
    requires again.readable && again.builds
    ensures var (after, r) := After(enc, live, input, w);
      && r == InternalError && Loaded(enc, after.row, again).Some?
      && Loaded(enc, after.row, again).value.backend == Some(Build(Merge(live.current, input)))
  {
    ApplyAgrees(enc, live, input, w);
  }

  /** The TTL condition matters: a request for 18446744074 seconds wraps to a TTL of less than half a
      second, which `validate` accepts and the row stores as zero. */
  lemma RestartLosesWrappedTTL(enc: Encryptor, live: Live, input: ApplyInput, w: World)
    requires Lawful(enc) && Agree(enc, live) && input.sessionTTL == FromSeconds(18_446_744_074)
    requires input.storageBackend == "local" && input.localDir != "" && 0 < input.maxCacheEntryBytes < TWO_63
    requires w.readable && w.builds && w.answers(Local(input.localDir)) && w.encrypts && w.persists.Takes?
    ensures var after := After(enc, live, input, w).0;
      && after.ttl == 290_448_384 && Loaded(enc, after.row, w).Some? && Loaded(enc, after.row, w).value.ttl == 0
  {
    assert FromSeconds(18_446_744_074) == 290_448_384;
    ApplyAgrees(enc, live, input, w);
  }

  /** Through the admin API: whether an update of `seconds` that succeeds is stored and reported
      as that many seconds depends only on the request fitting a duration. */
  lemma UpdateReportsRequest(enc: Encryptor, live: Live, input: ApplyInput, w: World, seconds: int)
    requires Lawful(enc) && Agree(enc, live) && Int64(seconds) && input.sessionTTL == FromSeconds(seconds)
    requires After(enc, live, input, w).1.Applied?
    ensures var (after, r) := After(enc, live, input, w);
      && after.row.sessionTTLSeconds == ToSeconds(r.shown.sessionTTL) < 0x8000_0000
      && (ToSeconds(r.shown.sessionTTL) == seconds <==> 0 < seconds <= MAX_SECONDS)
      && (0 < seconds <= MAX_SECONDS ==> after.ttl == seconds * SECOND)
  {
    SecondsRoundTrip(seconds);
    var (after, r) := After(enc, live, input, w);
    assert after.row.sessionTTLSeconds == ToSeconds(FromSeconds(seconds));
    if -MAX_SECONDS <= seconds <= MAX_SECONDS {
      PositiveStays(seconds);
    }
  }

  lemma PositiveStays(seconds: int)
    requires -MAX_SECONDS <= seconds <= MAX_SECONDS
    ensures FromSeconds(seconds) == seconds * SECOND
    ensures FromSeconds(seconds) > 0 <==> seconds > 0
  {
  }

  // ---------------------------------------------------------------- the last request

  /** No restart comes upon an answer that was lost and not settled. */
  predicate RestartsSettled(enc: Encryptor, live: Live, calls: seq<Call>) {
    calls == [] ||
    var n := |calls| - 1;
    RestartsSettled(enc, live, calls[..n]) && (calls[n].Restart? ==> Settled(enc, live, calls[..n]))
  }

  /** The server was restarted since the last request that succeeded. */
  predicate RestartedSince(enc: Encryptor, live: Live, calls: seq<Call>) {
    calls != [] &&
    var n := |calls| - 1;
    !Applies(enc, Run(enc, live, calls[..n]), calls[n])
    && (calls[n].Restart? || RestartedSince(enc, live, calls[..n]))
  }

  function TTLAfter(ttl: int, restarted: bool): int {
    if restarted then Cut(ttl) else ttl
  }

  /** Every plain field of the configuration is the requested one; a restart cuts the TTL. */
  predicate Shows(s: Settings, input: ApplyInput, restarted: bool) {
    && s.storageBackend == input.storageBackend && s.localDir == input.localDir
    && s.s3Bucket == input.s3Bucket && s.s3Region == input.s3Region && s.s3Prefix == input.s3Prefix
    && s.s3Endpoint == input.s3Endpoint && s.s3UsePathStyle == input.s3UsePathStyle
    && s.gcsBucket == input.gcsBucket && s.gcsPrefix == input.gcsPrefix
    && s.maxCacheEntryBytes == input.maxCacheEntryBytes
    && s.sessionTTL == TTLAfter(input.sessionTTL, restarted)
  }

  function LastApplied(enc: Encryptor, live: Live, calls: seq<Call>): Option<ApplyInput> {
    if calls == [] then None
    else
      var n := |calls| - 1;
      if Applies(enc, Run(enc, live, calls[..n]), calls[n]) then Some(calls[n].input)
      else LastApplied(enc, live, calls[..n])
  }

  /** The live settings after a call: those of the request, or the same as before, the TTL cut by a
      restart. */
  lemma OneCallShows(enc: Encryptor, live: Live, call: Call)
    requires Lawful(enc) && MemoryAgrees(live) && RowSound(enc, live.row) && SaneCall(call)
    requires call.Restart? ==> Agree(enc, live)
    ensures var s, after := live.current, Perform(enc, live, call).current;
      if Applies(enc, live, call) then Shows(after, call.input, false)
      else SameBut(s, after, TTLAfter(s.sessionTTL, call.Restart?))
  {
    match call
    case Update(input, w) => ApplyAgrees(enc, live, input, w);
    case Restart(w) => LoadAgrees(enc, live.row, w);
  }

  lemma CutTwice(d: int)
    requires Int64(d)
    ensures Cut(Cut(d)) == Cut(d)
  {
    QuotientBound(d);
    SecondsRoundTrip(ToSeconds(d));
  }

  /** After any run, restarts included, the server works with the last request that succeeded, or
      with what it loaded. */
  lemma {:induction false} LastAppliedIsLive(enc: Encryptor, live: Live, calls: seq<Call>)
    requires Lawful(enc) && Agree(enc, live) && Sane(calls) && RestartsSettled(enc, live, calls)
    ensures var s, last := Run(enc, live, calls).current, LastApplied(enc, live, calls);
      var restarted := RestartedSince(enc, live, calls);
      if last.Some? then Int64(last.value.sessionTTL) && Shows(s, last.value, restarted)
      else SameBut(live.current, s, TTLAfter(live.current.sessionTTL, restarted))
  {
    if calls != [] {
      var n := |calls| - 1;
      var before := Run(enc, live, calls[..n]);
      RunAgrees(enc, live, calls[..n]);
      LastAppliedIsLive(enc, live, calls[..n]);
      assert calls[n] in calls && SaneCall(calls[n]);
      OneCallShows(enc, before, calls[n]);
      CutTwice(live.current.sessionTTL);
      if LastApplied(enc, live, calls[..n]).Some? { CutTwice(LastApplied(enc, live, calls[..n]).value.sessionTTL); }
    }
  }

  // ---------------------------------------------------------------- secrets

  datatype Which = AccessKeyID | SecretAccessKey | Credentials

  function SecretOf(s: Settings, which: Which): Secret {
    match which
    case AccessKeyID => s.s3AccessKeyID
    case SecretAccessKey => s.s3SecretAccessKey
    case Credentials => s.gcsCredentialsJSON
  }

  function SuppliedIn(input: ApplyInput, which: Which): Option<string> {
    match which
    case AccessKeyID => input.s3AccessKeyID
    case SecretAccessKey => input.s3SecretAccessKey
    case Credentials => input.gcsCredentialsJSON
  }

  /** What a call supplied for one secret: nothing when it failed. */
  function Supply(enc: Encryptor, live: Live, call: Call, which: Which): Option<string> {
    if Applies(enc, live, call) then SuppliedIn(call.input, which) else None
  }

  function Supplies(enc: Encryptor, live: Live, calls: seq<Call>, which: Which): seq<Option<string>> {
    if calls == [] then []
    else
      var n := |calls| - 1;
      Supplies(enc, live, calls[..n], which) + [Supply(enc, Run(enc, live, calls[..n]), calls[n], which)]
  }

  predicate LastAt(supplies: seq<Option<string>>, k: int) {
    && 0 <= k < |supplies| && supplies[k].Some?
    && forall j :: k < j < |supplies| ==> supplies[j].None?
  }

  /** `x` is the last value supplied, else the one loaded at the start. */
  ghost predicate Follows(x: Secret, loaded: Secret, supplies: seq<Option<string>>) {
    && (forall k :: LastAt(supplies, k) ==> Some(x.text) == supplies[k])
    && ((forall k :: !LastAt(supplies, k)) ==> x == loaded)
  }

  lemma FollowsStep(x: Secret, loaded: Secret, supplies: seq<Option<string>>, supply: Option<string>)
    requires Follows(x, loaded, supplies)
    ensures Follows(UpdateSecret(x, supply), loaded, supplies + [supply])
  {
    var all := supplies + [supply];
    if supply.Some? {
      assert LastAt(all, |supplies|);
    } else {
      forall k ensures LastAt(all, k) <==> LastAt(supplies, k) {
        assert forall j :: 0 <= j < |supplies| ==> all[j] == supplies[j];
      }
    }
  }

  lemma UpdateOfSecret(enc: Encryptor, live: Live, input: ApplyInput, w: World, which: Which)
    ensures var (after, r) := After(enc, live, input, w);
      SecretOf(after.current, which) ==
        UpdateSecret(SecretOf(live.current, which), if r.Applied? then SuppliedIn(input, which) else None)
  {
  }

  /** One call on one secret. */
  lemma SecretStep(enc: Encryptor, live: Live, call: Call, which: Which)
    requires call.Restart? ==> SaneCall(call) && Agree(enc, live)
    ensures SecretOf(Perform(enc, live, call).current, which) ==
      UpdateSecret(SecretOf(live.current, which), Supply(enc, live, call, which))
  {
    if call.Update? {
      UpdateOfSecret(enc, live, call.input, call.world, which);
    }
  }

  /** The secret update law, over any run of updates and restarts: each secret is the last value a
      successful call supplied, else the loaded one, and its flag says whether there is one. */
  lemma {:induction false} SecretLaw(enc: Encryptor, live: Live, calls: seq<Call>, which: Which)
    requires Lawful(enc) && Agree(enc, live) && Sane(calls) && RestartsSettled(enc, live, calls)
    ensures var x := SecretOf(Run(enc, live, calls).current, which);
      && Follows(x, SecretOf(live.current, which), Supplies(enc, live, calls, which))
      && SetWhenText(x)
  {
    RunAgrees(enc, live, calls);
    if calls != [] {
      var n := |calls| - 1;
      var before := Run(enc, live, calls[..n]);
      SecretLaw(enc, live, calls[..n], which);
      RunAgrees(enc, live, calls[..n]);
      assert calls[n] in calls && SaneCall(calls[n]);
      SecretStep(enc, before, calls[n], which);
      FollowsStep(SecretOf(before.current, which), SecretOf(live.current, which),
                  Supplies(enc, live, calls[..n], which),
                  Supply(enc, before, calls[n], which));
    }
  }
}
