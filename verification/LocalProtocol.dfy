/** The local backend as a protocol over a hard-link file system: any number of calls,
    each in an explicit phase, one transition per system call. */
module LocalProtocol {
  import opened Names
  import opened Contract

  // ---------------------------------------------------------------- the file system

  /** An inode's bytes; `writer` is the `Put` call that created it. */
  datatype File = File(data: Bytes, writer: nat)

  /** Names point to inodes. An inode stays readable after its last name is removed. */
  datatype Fs = Fs(names: map<string, nat>, files: map<nat, File>)

  // ---------------------------------------------------------------- calls

  datatype Op =
    | Put(hash: string, payload: Bytes, size: int)   // payload: all the request body will deliver
    | Get(hash: string)
    | Delete(hash: string)

  datatype Result =
    | Ok
    | AlreadyExists
    | NotFound
    | ShortWrite
    | Failed                                 // any other error of a system call
    | Body(size: nat, data: Bytes)           // the announced size and the bytes streamed

  /** What a call is about to do. */
  datatype Phase =
    | Stat
    | CreateTemp
    | Copy(tmp: string, ino: nat)
    | Link(tmp: string, ino: nat)
    | Unlink(tmp: string, ino: nat, result: Result)   // the deferred removal of the temp name
    | Open
    | StatOpen(ino: nat)
    | Stream(ino: nat, size: nat, sent: Bytes)
    | Remove
    | Done(result: Result)

  datatype Call = Call(op: Op, phase: Phase)

  datatype State = State(fs: Fs, calls: map<nat, Call>, hist: seq<Event>)

  const INIT := State(Fs(map[], map[]), map[], [])

  /** How many bytes `io.Copy(tmp, io.LimitReader(r, size))` copies when nothing fails. */
  function Limit(op: Op): nat
    requires op.Put?
  {
    if op.size <= 0 then 0 else if op.size < |op.payload| then op.size else |op.payload|
  }

  // ---------------------------------------------------------------- transitions

  datatype Step =
    | Begin(call: nat, op: Op)
    | StatTarget(call: nat, failed: bool)
    | MakeTemp(call: nat, failed: bool, suffix: string, ino: nat)
    | CopyChunk(call: nat, count: nat)
    | EndCopy(call: nat, failed: bool)
    | LinkTarget(call: nat, failed: bool)
    | UnlinkTemp(call: nat, failed: bool)
    | OpenTarget(call: nat, failed: bool)
    | StatOpened(call: nat, failed: bool)
    | ReadChunk(call: nat, count: nat)
    | EndRead(call: nat, failed: bool)
    | RemoveTarget(call: nat, failed: bool)

  predicate Enabled(s: State, step: Step) {
    if step.Begin? then step.call !in s.calls && ValidHash(step.op.hash)
    else
      step.call in s.calls &&
      var call := s.calls[step.call];
      match step
      case StatTarget(_, _) => call.phase.Stat?
      case MakeTemp(_, _, suffix, ino) =>
        call.phase.CreateTemp? && TempName(call.op.hash, suffix) !in s.fs.names && ino !in s.fs.files
      case CopyChunk(_, count) =>
        call.phase.Copy? && call.op.Put? && call.phase.ino in s.fs.files
        && 0 < count <= Limit(call.op) - |s.fs.files[call.phase.ino].data|
      case EndCopy(_, failed) =>
        call.phase.Copy? && call.op.Put? && call.phase.ino in s.fs.files
        && (failed || |s.fs.files[call.phase.ino].data| == Limit(call.op))
      case LinkTarget(_, _) => call.phase.Link? && call.phase.tmp in s.fs.names && call.op.Put?
      case UnlinkTemp(_, _) => call.phase.Unlink?
      case OpenTarget(_, _) => call.phase.Open?
      case StatOpened(_, _) => call.phase.StatOpen? && call.phase.ino in s.fs.files
      case ReadChunk(_, count) =>
        call.phase.Stream? && call.phase.ino in s.fs.files
        && 0 < count <= |s.fs.files[call.phase.ino].data| - |call.phase.sent|
      case EndRead(_, failed) =>
        call.phase.Stream? && call.phase.ino in s.fs.files
        && (failed || |call.phase.sent| == |s.fs.files[call.phase.ino].data|)
      case RemoveTarget(_, _) => call.phase.Remove?
  }

  function FirstPhase(op: Op): Phase {
    match op
    case Put(_, _, _) => Stat
    case Get(_) => Open
    case Delete(_) => Remove
  }

  /** Call `c` moves to `phase`, taking effect as `events`. */
  function Goto(s: State, c: nat, phase: Phase, events: seq<Event>): State
    requires c in s.calls
  {
    s.(calls := s.calls[c := s.calls[c].(phase := phase)], hist := s.hist + events)
  }

  function Next(s: State, step: Step): State
    requires Enabled(s, step)
  {
    var c := step.call;
    if step.Begin? then s.(calls := s.calls[c := Call(step.op, FirstPhase(step.op))])
    else
      var h := s.calls[c].op.hash;
      var phase := s.calls[c].phase;
      match step
      case StatTarget(_, failed) =>
        if failed then Goto(s, c, Done(Failed), [])
        else if h in s.fs.names then Goto(s, c, Done(AlreadyExists), [Refused(c, h)])
        else Goto(s, c, CreateTemp, [])
      case MakeTemp(_, failed, suffix, ino) =>
        if failed then Goto(s, c, Done(Failed), [])
        else
          var tmp := TempName(h, suffix);
          Goto(s, c, Copy(tmp, ino), [])
            .(fs := Fs(s.fs.names[tmp := ino], s.fs.files[ino := File([], c)]))
      case CopyChunk(_, count) =>
        var f := s.fs.files[phase.ino];
        var more := s.calls[c].op.payload[|f.data|..|f.data| + count];
        s.(fs := s.fs.(files := s.fs.files[phase.ino := f.(data := f.data + more)]))
      case EndCopy(_, failed) =>
        Goto(s, c,
             if failed then Unlink(phase.tmp, phase.ino, Failed)
             else if |s.fs.files[phase.ino].data| != s.calls[c].op.size then Unlink(phase.tmp, phase.ino, ShortWrite)
             else Link(phase.tmp, phase.ino),
             [])
      case LinkTarget(_, failed) =>
        if failed then Goto(s, c, Unlink(phase.tmp, phase.ino, Failed), [])
        else if h in s.fs.names then Goto(s, c, Unlink(phase.tmp, phase.ino, AlreadyExists), [Refused(c, h)])
        else
          var data := if s.fs.names[phase.tmp] in s.fs.files then s.fs.files[s.fs.names[phase.tmp]].data else [];
          Goto(s, c, Unlink(phase.tmp, phase.ino, Ok), [Stored(c, h, data)])
            .(fs := s.fs.(names := s.fs.names[h := s.fs.names[phase.tmp]]))
      case UnlinkTemp(_, failed) =>
        Goto(s, c, Done(phase.result), [])
          .(fs := if failed then s.fs else s.fs.(names := s.fs.names - {phase.tmp}))
      case OpenTarget(_, failed) =>
        if failed then Goto(s, c, Done(Failed), [])
        else if h !in s.fs.names then Goto(s, c, Done(NotFound), [Missing(c, h)])
        else
          var ino := s.fs.names[h];
          var data := if ino in s.fs.files then s.fs.files[ino].data else [];
          Goto(s, c, StatOpen(ino), [Found(c, h, data)])
      case StatOpened(_, failed) =>
        Goto(s, c, if failed then Done(Failed) else Stream(phase.ino, |s.fs.files[phase.ino].data|, []), [])
      case ReadChunk(_, count) =>
        var data := s.fs.files[phase.ino].data;
        Goto(s, c, phase.(sent := phase.sent + data[|phase.sent|..|phase.sent| + count]), [])
      case EndRead(_, failed) =>
        Goto(s, c, Done(if failed then Failed else Body(phase.size, phase.sent)), [])
      case RemoveTarget(_, failed) =>
        if failed then Goto(s, c, Done(Failed), [])
        else if h !in s.fs.names then Goto(s, c, Done(NotFound), [NothingToRemove(c, h)])
        else
          Goto(s, c, Done(Ok), [Removed(c, h)]).(fs := s.fs.(names := s.fs.names - {h}))
  }

  // ---------------------------------------------------------------- behaviours

  predicate MovesAt(b: seq<State>, steps: seq<Step>, i: nat)
    requires i < |steps| && |b| == |steps| + 1
  {
    Enabled(b[i], steps[i]) && b[i + 1] == Next(b[i], steps[i])
  }

  /** States and transitions of one interleaving, starting from an empty directory. */
  ghost predicate Behaviour(b: seq<State>, steps: seq<Step>) {
    |b| == |steps| + 1 && b[0] == INIT && forall i :: 0 <= i < |steps| ==> MovesAt(b, steps, i)
  }

  /** The artifacts a client can see: every name that is not a temporary one. */
  function Visible(s: State): Artifacts {
    map h | h in s.fs.names && !IsTemp(h) && s.fs.names[h] in s.fs.files :: s.fs.files[s.fs.names[h]].data
  }

  /** The `Put` has passed the point where it took effect. */
  predicate Succeeded(call: Call) {
    call.op.Put? && (call.phase.Unlink? || call.phase.Done?) && call.phase.result == Ok
  }
}
