/** `settings.Manager`: the object that drives `Load` and `Apply` over the store, the swappable
    backend, the session manager and the data server. */
module SettingsManager {
  import opened Wrappers
  import opened Settings

  /** `storage.Dynamic`. */
  class Dynamic {
    var current: Option<Backend>

    constructor ()
      ensures current == None
    {
      current := None;
    }

    method Swap(next: Backend)
      modifies this
      ensures current == Some(next)
    {
      current := Some(next);
    }
  }

  /** The session manager, as far as the settings reach it. */
  class Sessions {
    var ttlNanos: int

    method SetTTL(ttl: int)
      modifies this
      ensures ttlNanos == ttl
    {
      ttlNanos := ttl;
    }
  }

  /** The data server, as far as the settings reach it. */
  class DataServer {
    var maxEntryBytes: int

    method SetMaxEntryBytes(n: int)
      modifies this
      ensures maxEntryBytes == n
    {
      maxEntryBytes := n;
    }
  }

  /** The `app_settings` table with its single row. */
  class Table {
    var row: AppSettings

    /** When the answer is lost the row is written all the same. */
    method UpdateSettings(raw: AppSettings, persists: Statement) returns (ok: bool)
      modifies this
      ensures ok ==> row == raw
      ensures !ok && !persists.AnswerLost? ==> row == old(row)
      ensures persists.AnswerLost? ==> !ok && row == if Storable(raw) then raw else old(row)
      ensures ok <==> persists.Takes? && Storable(raw)
    {
      if persists.Refused? || !Storable(raw) {
        return false;
      }
      row := raw;
      ok := persists.Takes?;
    }
  }

  class Manager {
    const store: Table
    const enc: Encryptor
    const backend: Dynamic
    const sessions: Sessions
    const dataSrv: DataServer
    var current: Settings

    constructor (store: Table, enc: Encryptor, backend: Dynamic, sessions: Sessions,
                 dataSrv: DataServer, zero: Settings)
      ensures this.store == store && this.enc == enc && this.backend == backend
      ensures this.sessions == sessions && this.dataSrv == dataSrv && current == zero
    {
      this.store, this.enc, this.backend, this.sessions, this.dataSrv := store, enc, backend, sessions, dataSrv;
      this.current := zero;
    }

    /** The five copies as they are now. */
    ghost function State(): Live
      reads this, store, backend, sessions, dataSrv
    {
      Live(store.row, current, backend.current, sessions.ttlNanos, dataSrv.maxEntryBytes)
    }

    /** `Load`: all five copies come to describe the stored row, or nothing changes. */
    method Load(w: World) returns (ok: bool)
      modifies this, backend, sessions, dataSrv
      ensures ok <==> Loaded(enc, old(store.row), w).Some?
      ensures State() == if ok then Loaded(enc, old(store.row), w).value else old(State())
    {
      if !w.readable {
        return false;
      }
      var s := Decrypt(enc, store.row);
      if s.None? || !w.builds {
        return false;
      }
      var built := Build(s.value);
      backend.Swap(built);
      sessions.SetTTL(s.value.sessionTTL);
      dataSrv.SetMaxEntryBytes(s.value.maxCacheEntryBytes);
      current := s.value;
      ok := true;
    }

    /** `Apply`: validate, build, probe, encrypt, persist, and only then swap everything. */
    method Apply(input: ApplyInput, w: World) returns (r: Reply)
      modifies this, store, backend, sessions, dataSrv
      ensures (State(), r) == After(enc, old(State()), input, w)
    {
      var next := current;
      next := next.(
        storageBackend := input.storageBackend,
        localDir := input.localDir,
        s3Bucket := input.s3Bucket,
        s3Region := input.s3Region,
        s3Prefix := input.s3Prefix,
        s3Endpoint := input.s3Endpoint,
        s3UsePathStyle := input.s3UsePathStyle,
        gcsBucket := input.gcsBucket,
        gcsPrefix := input.gcsPrefix,
        sessionTTL := input.sessionTTL,
        maxCacheEntryBytes := input.maxCacheEntryBytes);
      if input.s3AccessKeyID.Some? {
        next := next.(s3AccessKeyID := Secret(input.s3AccessKeyID.value, input.s3AccessKeyID.value != ""));
      }
      if input.s3SecretAccessKey.Some? {
        next := next.(s3SecretAccessKey := Secret(input.s3SecretAccessKey.value, input.s3SecretAccessKey.value != ""));
      }
      if input.gcsCredentialsJSON.Some? {
        next := next.(gcsCredentialsJSON :=
          Secret(input.gcsCredentialsJSON.value, input.gcsCredentialsJSON.value != ""));
      }
      assert next == Merge(current, input);

      if !Valid(next) {
        return Invalid;
      }
      if !w.builds {
        return Invalid;
      }
      var newBackend := Build(next);
      if !w.answers(newBackend) {   // newBackend.List(ctx, "", 1)
        return Invalid;
      }
      if !Encrypts(next, w) {
        return InternalError;
      }
      var raw := EncryptForStorage(enc, next, w.nonces, w.now, input.updatedBy);
      var stored := store.UpdateSettings(raw, w.persists);
      if !stored {
        return InternalError;
      }

      backend.Swap(newBackend);
      sessions.SetTTL(next.sessionTTL);
      dataSrv.SetMaxEntryBytes(next.maxCacheEntryBytes);
      next := next.(updatedAt := w.now);
      current := next;
      r := Applied(Redacted(next));
    }
  }
}
