/** What every reachable state of the protocol satisfies. */
module LocalInvariant {
  import opened Names
  import opened Contract
  import opened LocalProtocol

  predicate IsPut(s: State, c: nat) {
    c in s.calls && s.calls[c].op.Put?
  }

  /** `ino` holds exactly the announced bytes of a `Put` of `hash` that took effect. */
  predicate Published(s: State, ino: nat, hash: string) {
    ino in s.fs.files && IsPut(s, s.fs.files[ino].writer) &&
    var put := s.calls[s.fs.files[ino].writer];
    Succeeded(put) && put.op.hash == hash
    && 0 <= put.op.size <= |put.op.payload|
    && s.fs.files[ino].data == put.op.payload[..put.op.size]
  }

  /** `data` is the announced part of the payload of a `Put` of `hash` that took effect. */
  ghost predicate Uploaded(s: State, hash: string, data: Bytes) {
    exists w :: IsPut(s, w) && Succeeded(s.calls[w]) && s.calls[w].op.hash == hash
      && 0 <= s.calls[w].op.size <= |s.calls[w].op.payload|
      && data == s.calls[w].op.payload[..s.calls[w].op.size]
  }

  /** The temporary name of call `c` is its own: it names the inode that `c` created. */
  predicate OwnsTemp(s: State, c: nat, tmp: string, ino: nat) {
    IsTemp(tmp) && tmp in s.fs.names && s.fs.names[tmp] == ino
    && ino in s.fs.files && s.fs.files[ino].writer == c
  }

  ghost predicate CallOk(s: State, c: nat)
    requires c in s.calls
  {
    var op := s.calls[c].op;
    ValidHash(op.hash) &&
    match s.calls[c].phase
    case Stat | CreateTemp => op.Put?
    case Copy(tmp, ino) =>
      op.Put? && OwnsTemp(s, c, tmp, ino) && |s.fs.files[ino].data| <= Limit(op)
      && s.fs.files[ino].data == op.payload[..|s.fs.files[ino].data|]
    case Link(tmp, ino) =>
      op.Put? && OwnsTemp(s, c, tmp, ino) && 0 <= op.size <= |op.payload|
      && s.fs.files[ino].data == op.payload[..op.size]
    case Unlink(tmp, ino, result) =>
      op.Put? && OwnsTemp(s, c, tmp, ino)
      && (result.Ok? || result.AlreadyExists? || result.ShortWrite? || result.Failed?)
      && (result.Ok? ==> 0 <= op.size <= |op.payload|)
    case Open => op.Get?
    case StatOpen(ino) => op.Get? && Published(s, ino, op.hash)
    case Stream(ino, size, sent) =>
      op.Get? && Published(s, ino, op.hash) && size == |s.fs.files[ino].data|
      && |sent| <= size && sent == s.fs.files[ino].data[..|sent|]
    case Remove => op.Delete?
    case Done(result) =>
      match op
      case Put(_, payload, size) =>
        (result.Ok? || result.AlreadyExists? || result.ShortWrite? || result.Failed?)
        && (result.Ok? ==> 0 <= size <= |payload|)
      case Get(h) =>
        (result.Body? && result.size == |result.data| && Uploaded(s, h, result.data))
        || result.NotFound? || result.Failed?
      case Delete(_) => result.Ok? || result.NotFound? || result.Failed?
  }

  predicate NameOk(s: State, n: string)
    requires n in s.fs.names
  {
    s.fs.names[n] in s.fs.files && (!IsTemp(n) ==> ValidHash(n) && Published(s, s.fs.names[n], n))
  }

  ghost predicate FsInv(s: State) {
    && (forall n :: n in s.fs.names ==> NameOk(s, n))
    && (forall i :: i in s.fs.files ==> IsPut(s, s.fs.files[i].writer))
    && (forall c :: c in s.calls ==> CallOk(s, c))
  }

  /** What a transition of call `c` leaves alone: the other calls, uploads that took effect,
      every inode another call created, and every temporary name another call owns. */
  ghost predicate Frame(s: State, t: State, c: nat) {
    && (forall d :: d in s.calls && d != c ==> d in t.calls && t.calls[d] == s.calls[d])
    && (c in s.calls ==> c in t.calls && t.calls[c].op == s.calls[c].op
                         && (Succeeded(s.calls[c]) ==> Succeeded(t.calls[c])))
    && (forall i :: i in s.fs.files ==> FileKept(s, t, c, i))
    && (forall n :: n in s.fs.names && IsTemp(n) ==> TempKept(s, t, c, n))
  }

  predicate FileKept(s: State, t: State, c: nat, i: nat)
    requires i in s.fs.files
  {
    i in t.fs.files && t.fs.files[i].writer == s.fs.files[i].writer
    && ((s.fs.files[i].writer != c || (c in s.calls && Succeeded(s.calls[c]))) ==> t.fs.files[i] == s.fs.files[i])
  }

  predicate TempKept(s: State, t: State, c: nat, n: string)
    requires n in s.fs.names
  {
    (s.fs.names[n] in s.fs.files && s.fs.files[s.fs.names[n]].writer != c) ==>
      n in t.fs.names && t.fs.names[n] == s.fs.names[n]
  }

  predicate ChangesFs(step: Step) {
    step.MakeTemp? || step.CopyChunk? || step.LinkTarget? || step.UnlinkTemp? || step.RemoveTarget?
  }

  predicate IsPutStep(step: Step) {
    || step.StatTarget? || step.MakeTemp? || step.CopyChunk? || step.EndCopy? || step.LinkTarget? || step.UnlinkTemp?
  }

  lemma QuietStepFrame(s: State, step: Step)
    requires Enabled(s, step) && !ChangesFs(step)
    requires step.Begin? || CallOk(s, step.call)
    ensures Next(s, step).fs == s.fs && step.call in Next(s, step).calls && Frame(s, Next(s, step), step.call)
  {
  }

  lemma InodeStepFrame(s: State, step: Step)
    requires Enabled(s, step) && (step.MakeTemp? || step.CopyChunk?) && CallOk(s, step.call)
    ensures step.call in Next(s, step).calls && Frame(s, Next(s, step), step.call)
  {
  }

  lemma NameStepFrame(s: State, step: Step)
    requires Enabled(s, step) && (step.LinkTarget? || step.UnlinkTemp? || step.RemoveTarget?) && CallOk(s, step.call)
    ensures Next(s, step).fs.files == s.fs.files
    ensures step.call in Next(s, step).calls && Frame(s, Next(s, step), step.call)
  {
    ValidHashIsNotTemp(s.calls[step.call].op.hash);
  }

  lemma StepFrame(s: State, step: Step)
    requires FsInv(s) && Enabled(s, step)
    ensures step.call in Next(s, step).calls && Frame(s, Next(s, step), step.call)
  {
    assert !step.Begin? ==> CallOk(s, step.call);
    if step.MakeTemp? || step.CopyChunk? {
      InodeStepFrame(s, step);
    } else if ChangesFs(step) {
      NameStepFrame(s, step);
    } else {
      QuietStepFrame(s, step);
    }
  }

  lemma FramePublished(s: State, t: State, c: nat, ino: nat, hash: string)
    requires Frame(s, t, c) && Published(s, ino, hash)
    ensures Published(t, ino, hash)
  {
  }

  lemma FrameUploaded(s: State, t: State, c: nat, hash: string, data: Bytes)
    requires Frame(s, t, c) && Uploaded(s, hash, data)
    ensures Uploaded(t, hash, data)
  {
    var w :| IsPut(s, w) && Succeeded(s.calls[w]) && s.calls[w].op.hash == hash
      && 0 <= s.calls[w].op.size <= |s.calls[w].op.payload|
      && data == s.calls[w].op.payload[..s.calls[w].op.size];
    assert IsPut(t, w) && Succeeded(t.calls[w]);
  }

  /** Calls other than the one that moves keep what they rely on. */
  lemma OthersKeep(s: State, t: State, c: nat, d: nat)
    requires FsInv(s) && Frame(s, t, c) && d in s.calls && d != c
    ensures CallOk(t, d)
  {
    assert CallOk(s, d);
    var call := s.calls[d];
    match call.phase
    case StatOpen(ino) => FramePublished(s, t, c, ino, call.op.hash);
    case Stream(ino, _, _) => FramePublished(s, t, c, ino, call.op.hash);
    case Done(result) =>
      if call.op.Get? && result.Body? {
        FrameUploaded(s, t, c, call.op.hash, result.data);
      }
    case _ =>
  }

  lemma PutMoverKeeps(s: State, step: Step)
    requires FsInv(s) && Enabled(s, step)
    requires IsPutStep(step)
    ensures var t := Next(s, step); step.call in t.calls && CallOk(t, step.call)
  {
    assert CallOk(s, step.call);
    var h := s.calls[step.call].op.hash;
    if step.MakeTemp? { TempNameIsTemp(h, step.suffix); }
    ValidHashIsNotTemp(h);
  }

  lemma ReadMoverKeeps(s: State, step: Step)
    requires FsInv(s) && Enabled(s, step)
    requires !IsPutStep(step)
    ensures var t := Next(s, step); step.call in t.calls && CallOk(t, step.call)
  {
    if !step.Begin? {
      var c := step.call;
      var call := s.calls[c];
      assert CallOk(s, c);
      ValidHashIsNotTemp(call.op.hash);
      assert call.op.hash in s.fs.names ==> NameOk(s, call.op.hash);
      if step.EndRead? && !step.failed {
        var w := s.fs.files[call.phase.ino].writer;
        assert IsPut(Next(s, step), w) && Succeeded(Next(s, step).calls[w]);
      }
    }
  }

  lemma MoverKeeps(s: State, step: Step)
    requires FsInv(s) && Enabled(s, step)
    ensures var t := Next(s, step); step.call in t.calls && CallOk(t, step.call)
  {
    if IsPutStep(step) {
      PutMoverKeeps(s, step);
    } else {
      ReadMoverKeeps(s, step);
    }
  }

  /** A name that a transition creates or redirects. */
  lemma NewName(s: State, step: Step, n: string)
    requires FsInv(s) && Enabled(s, step) && n in Next(s, step).fs.names
    requires n !in s.fs.names || Next(s, step).fs.names[n] != s.fs.names[n]
    ensures step.MakeTemp? || step.LinkTarget?
    ensures step.MakeTemp? ==> IsTemp(n) && Next(s, step).fs.names[n] == step.ino
    ensures step.LinkTarget? ==> n == s.calls[step.call].op.hash && Succeeded(Next(s, step).calls[step.call])
                                 && Next(s, step).fs.names[n] == s.calls[step.call].phase.ino
  {
    assert !step.Begin? ==> CallOk(s, step.call);
    if step.MakeTemp? { TempNameIsTemp(s.calls[step.call].op.hash, step.suffix); }
  }

  lemma NamesKeep(s: State, step: Step, n: string)
    requires FsInv(s) && Enabled(s, step) && n in Next(s, step).fs.names
    ensures NameOk(Next(s, step), n)
  {
    var t := Next(s, step);
    StepFrame(s, step);
    if n in s.fs.names && t.fs.names[n] == s.fs.names[n] {
      assert NameOk(s, n);
      if !IsTemp(n) { FramePublished(s, t, step.call, s.fs.names[n], n); }
    } else {
      NewName(s, step, n);
      assert CallOk(s, step.call);
    }
  }

  lemma StepKeepsFsInv(s: State, step: Step)
    requires FsInv(s) && Enabled(s, step)
    ensures FsInv(Next(s, step))
  {
    var t := Next(s, step);
    StepFrame(s, step);
    forall n | n in t.fs.names ensures NameOk(t, n) { NamesKeep(s, step, n); }
    forall d | d in t.calls ensures CallOk(t, d) {
      if d == step.call { MoverKeeps(s, step); } else { OthersKeep(s, t, step.call, d); }
    }
    forall i | i in t.fs.files ensures IsPut(t, t.fs.files[i].writer) {
      if i in s.fs.files { assert IsPut(s, s.fs.files[i].writer); } else { assert CallOk(s, step.call); }
    }
  }
}
