/** The runtime settings: the stored row, the in-memory record, and the pieces `Load` and `Apply`
    put together (decryption, encryption, validation, the backend they describe). */
module Settings {
  import opened Wrappers
  import opened Durations

  // ---------------------------------------------------------------- records

  /** A secret in memory: its text, and the flag the admin API shows instead of it. */
  datatype Secret = Secret(text: string, isSet: bool)

  datatype Settings = Settings(
    storageBackend: string, localDir: string,
    s3Bucket: string, s3Region: string, s3Prefix: string, s3Endpoint: string, s3UsePathStyle: bool,
    s3AccessKeyID: Secret, s3SecretAccessKey: Secret,
    gcsBucket: string, gcsPrefix: string, gcsCredentialsJSON: Secret,
    sessionTTL: int, maxCacheEntryBytes: int,
    updatedAt: int, updatedBy: Option<int>)

  /** The single row of `app_settings`: secrets as ciphertext, or NULL. */
  datatype AppSettings = AppSettings(
    storageBackend: string, localDir: string,
    s3Bucket: string, s3Region: string, s3Prefix: string, s3Endpoint: string, s3UsePathStyle: bool,
    s3AccessKeyIDEnc: Option<string>, s3SecretAccessKeyEnc: Option<string>,
    gcsBucket: string, gcsPrefix: string, gcsCredentialsJSONEnc: Option<string>,
    sessionTTLSeconds: int, maxCacheEntryBytes: int,
    updatedAt: int, updatedBy: Option<int>)

  /** An update request; a secret is None to keep it, Some("") to clear it. */
  datatype ApplyInput = ApplyInput(
    storageBackend: string, localDir: string,
    s3Bucket: string, s3Region: string, s3Prefix: string, s3Endpoint: string, s3UsePathStyle: bool,
    s3AccessKeyID: Option<string>, s3SecretAccessKey: Option<string>,
    gcsBucket: string, gcsPrefix: string, gcsCredentialsJSON: Option<string>,
    sessionTTL: int, maxCacheEntryBytes: int,
    updatedBy: int)

  /** A storage client, as the options it was built from. */
  datatype Backend =
    | Local(dir: string)
    | S3(bucket: string, region: string, prefix: string, endpoint: string, usePathStyle: bool,
         accessKeyID: string, secretAccessKey: string)
    | GCS(bucket: string, prefix: string, credentialsJSON: string)

  function Build(s: Settings): Backend {
    if s.storageBackend == "s3" then
      S3(s.s3Bucket, s.s3Region, s.s3Prefix, s.s3Endpoint, s.s3UsePathStyle,
         s.s3AccessKeyID.text, s.s3SecretAccessKey.text)
    else if s.storageBackend == "gcs" then GCS(s.gcsBucket, s.gcsPrefix, s.gcsCredentialsJSON.text)
    else Local(s.localDir)
  }

  /** `validate`. */
  predicate Valid(s: Settings) {
    && (s.storageBackend == "local" || s.storageBackend == "s3" || s.storageBackend == "gcs")
    && (s.storageBackend == "local" ==> s.localDir != "")
    && (s.storageBackend == "s3" ==> s.s3Bucket != "")
    && (s.storageBackend == "gcs" ==> s.gcsBucket != "")
    && s.sessionTTL > 0 && s.maxCacheEntryBytes > 0
  }

  /** What the admin API may show: the flags without the secrets. */
  function Redacted(s: Settings): Settings {
    s.(s3AccessKeyID := s.s3AccessKeyID.(text := ""),
       s3SecretAccessKey := s.s3SecretAccessKey.(text := ""),
       gcsCredentialsJSON := s.gcsCredentialsJSON.(text := ""))
  }

  // ---------------------------------------------------------------- encryption

  /** AES-GCM with a random nonce, as far as this package relies on it. */
  datatype Encryptor = Encryptor(encrypt: (string, nat) -> string, decrypt: string -> Option<string>)

  /** Decryption inverts encryption, whatever the nonce. */
  ghost predicate Lawful(enc: Encryptor) {
    forall text, nonce :: enc.decrypt(enc.encrypt(text, nonce)) == Some(text)
  }

  /** The law can be met: a blob that carries its nonce in front of the text. */
  lemma LawfulEncryptorExists(enc: Encryptor)
    requires enc == Encryptor((text, nonce) => [(nonce % 256) as char] + text,
                              blob => if blob == [] then None else Some(blob[1..]))
    ensures Lawful(enc)
  {
    forall text, nonce ensures enc.decrypt(enc.encrypt(text, nonce)) == Some(text) {
      assert ([(nonce % 256) as char] + text)[1..] == text;
    }
  }

  function Opened(enc: Encryptor, blob: Option<string>): Option<Secret> {
    if blob.None? then Some(Secret("", false))
    else
      var text := enc.decrypt(blob.value);
      if text.None? then None else Some(Secret(text.value, true))
  }

  function Sealed(enc: Encryptor, text: string, nonce: nat): Option<string> {
    if text == "" then None else Some(enc.encrypt(text, nonce))
  }

  /** `decrypt`: None when a secret cannot be decrypted. */
  function Decrypt(enc: Encryptor, raw: AppSettings): Option<Settings> {
    var id := Opened(enc, raw.s3AccessKeyIDEnc);
    var key := Opened(enc, raw.s3SecretAccessKeyEnc);
    var gcs := Opened(enc, raw.gcsCredentialsJSONEnc);
    if id.None? || key.None? || gcs.None? then None
    else Some(Settings(
      raw.storageBackend, raw.localDir,
      raw.s3Bucket, raw.s3Region, raw.s3Prefix, raw.s3Endpoint, raw.s3UsePathStyle,
      id.value, key.value,
      raw.gcsBucket, raw.gcsPrefix, gcs.value,
      FromSeconds(raw.sessionTTLSeconds), raw.maxCacheEntryBytes,
      raw.updatedAt, raw.updatedBy))
  }

  datatype Nonces = Nonces(id: nat, key: nat, gcs: nat)

  /** `encryptForStorage`; the update time and author are set by the statement that stores it. */
  function EncryptForStorage(enc: Encryptor, s: Settings, nonces: Nonces, now: int, author: int): AppSettings {
    AppSettings(
      s.storageBackend, s.localDir,
      s.s3Bucket, s.s3Region, s.s3Prefix, s.s3Endpoint, s.s3UsePathStyle,
      Sealed(enc, s.s3AccessKeyID.text, nonces.id), Sealed(enc, s.s3SecretAccessKey.text, nonces.key),
      s.gcsBucket, s.gcsPrefix, Sealed(enc, s.gcsCredentialsJSON.text, nonces.gcs),
      ToSeconds(s.sessionTTL), s.maxCacheEntryBytes,
      now, Some(author))
  }

  /** What the table accepts: the TTL column is a 32-bit integer. */
  predicate Storable(raw: AppSettings) {
    -0x8000_0000 <= raw.sessionTTLSeconds < 0x8000_0000 && Int64(raw.maxCacheEntryBytes)
    && (raw.storageBackend == "local" || raw.storageBackend == "s3" || raw.storageBackend == "gcs")
  }

  // ---------------------------------------------------------------- the update

  function UpdateSecret(old': Secret, supplied: Option<string>): Secret {
    if supplied.None? then old' else Secret(supplied.value, supplied.value != "")
  }

  /** The settings `Apply` aims for: the current ones with the request written over them. */
  function Merge(s: Settings, input: ApplyInput): Settings {
    s.(storageBackend := input.storageBackend, localDir := input.localDir,
       s3Bucket := input.s3Bucket, s3Region := input.s3Region, s3Prefix := input.s3Prefix,
       s3Endpoint := input.s3Endpoint, s3UsePathStyle := input.s3UsePathStyle,
       gcsBucket := input.gcsBucket, gcsPrefix := input.gcsPrefix,
       sessionTTL := input.sessionTTL, maxCacheEntryBytes := input.maxCacheEntryBytes,
       s3AccessKeyID := UpdateSecret(s.s3AccessKeyID, input.s3AccessKeyID),
       s3SecretAccessKey := UpdateSecret(s.s3SecretAccessKey, input.s3SecretAccessKey),
       gcsCredentialsJSON := UpdateSecret(s.gcsCredentialsJSON, input.gcsCredentialsJSON))
  }

  // ---------------------------------------------------------------- five copies of one configuration

  /** The copies the manager keeps in agreement: the stored row, the in-memory record, the live
      backend, the session TTL and the size limit. */
  datatype Live = Live(row: AppSettings, current: Settings, backend: Option<Backend>, ttl: int, limit: int)

  /** What becomes of the statement that stores the row. */
  datatype Statement = Takes | Refused | AnswerLost

  /** How the outside world treats one `Load` or `Apply`: among others, which backends answer the
      `List` that probes them. */
  datatype World = World(readable: bool, builds: bool, answers: Backend -> bool, encrypts: bool, persists: Statement,
                         nonces: Nonces, now: int)

  /** Encryption can only fail when there is something to encrypt. */
  predicate Encrypts(s: Settings, w: World) {
    w.encrypts || (s.s3AccessKeyID.text == "" && s.s3SecretAccessKey.text == "" && s.gcsCredentialsJSON.text == "")
  }

  datatype Reply = Applied(shown: Settings) | Invalid | InternalError

  function Loaded(enc: Encryptor, row: AppSettings, w: World): Option<Live> {
    if !w.readable || Decrypt(enc, row).None? || !w.builds then None
    else
      var s := Decrypt(enc, row).value;
      Some(Live(row, s, Some(Build(s)), s.sessionTTL, s.maxCacheEntryBytes))
  }

  function After(enc: Encryptor, live: Live, input: ApplyInput, w: World): (Live, Reply) {
    var next := Merge(live.current, input);
    var raw := EncryptForStorage(enc, next, w.nonces, w.now, input.updatedBy);
    if !Valid(next) || !w.builds || !w.answers(Build(next)) then (live, Invalid)
    else if !Encrypts(next, w) || w.persists.Refused? || !Storable(raw) then (live, InternalError)
    else if w.persists.AnswerLost? then (live.(row := raw), InternalError)
    else
      (Live(raw, next.(updatedAt := w.now), Some(Build(next)), next.sessionTTL, next.maxCacheEntryBytes),
       Applied(Redacted(next.(updatedAt := w.now))))
  }
}
