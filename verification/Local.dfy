/** The local backend's methods: straight-line code over system calls, with arbitrary transitions
    of other clients between any two of them. The life of the object is one behaviour of the
    protocol. */
module Local {
  import opened Names
  import opened Contract
  import opened LocalProtocol
  import opened LocalInvariant
  import opened LocalRefinement

  datatype StatResult = Present | Absent | StatError

  ghost function NamesFrom(names: set<string>, length: nat): set<string> {
    set n | n in names && |n| >= length
  }

  ghost function InodesFrom(inodes: set<nat>, first: nat): set<nat> {
    set i | i in inodes && i >= first
  }

  lemma BehaviourExtends(b: seq<State>, steps: seq<Step>, step: Step)
    requires Behaviour(b, steps) && Enabled(b[|b| - 1], step)
    ensures Behaviour(b + [Next(b[|b| - 1], step)], steps + [step])
  {
    var b', steps' := b + [Next(b[|b| - 1], step)], steps + [step];
    forall i | 0 <= i < |steps'| ensures MovesAt(b', steps', i) {
      assert i < |steps| ==> MovesAt(b, steps, i);
    }
  }

  ghost predicate Undisturbed(s: State, t: State, c: nat) {
    && c in s.calls && c in t.calls && t.calls[c] == s.calls[c]
    && EventsOf(t.hist, c) == EventsOf(s.hist, c)
    && (forall i :: i in s.fs.files && s.fs.files[i].writer == c ==> i in t.fs.files && t.fs.files[i] == s.fs.files[i])
  }

  lemma OtherStepUndisturbed(s: State, step: Step, c: nat)
    requires Inv(s) && Enabled(s, step) && step.call != c && c in s.calls
    ensures Undisturbed(s, Next(s, step), c)
  {
    StepFrame(s, step);
    OthersExplained(s, step, c);
    assert forall i :: i in s.fs.files ==> FileKept(s, Next(s, step), step.call, i);
  }

  lemma UndisturbedTransitive(s: State, t: State, u: State, c: nat)
    requires Undisturbed(s, t, c) && Undisturbed(t, u, c)
    ensures Undisturbed(s, u, c)
  {
  }

  class Directory {
    var st: State
    var clock: nat
    const others: nat -> seq<Step>    // what the other clients do before each of our system calls
    const fails: nat -> bool          // which of our system calls fail

    ghost var states: seq<State>
    ghost var steps: seq<Step>

    ghost predicate Valid()
      reads this
    {
      Behaviour(states, steps) && st == states[|states| - 1]
    }

    /** Call `c` is ours and has reached `phase`. */
    ghost predicate At(c: nat, op: Op, phase: Phase)
      reads this
    {
      Valid() && c in st.calls && st.calls[c] == Call(op, phase)
    }

    /** One of our system calls since the `start`-th failed. */
    ghost predicate FailedSince(start: nat)
      reads this
    {
      exists t :: start <= t < clock && fails(t)
    }

    constructor (others: nat -> seq<Step>, fails: nat -> bool)
      ensures Valid() && st == INIT && this.others == others && this.fails == fails
    {
      this.st, this.clock, this.others, this.fails := INIT, 0, others, fails;
      this.states, this.steps := [INIT], [];
    }

    method Do(step: Step)
      requires Valid() && Enabled(st, step)
      modifies this`st, this`states, this`steps
      ensures Valid() && st == Next(old(st), step)
    {
      BehaviourExtends(states, steps, step);
      st, states, steps := Next(st, step), states + [Next(st, step)], steps + [step];
    }

    /** Another client's transition leaves call `c` and the inodes it created as they are. */
    method TryOther(c: nat, step: Step)
      requires Valid() && c in st.calls
      modifies this`st, this`states, this`steps
      ensures Valid() && Undisturbed(old(st), st, c)
    {
      if step.call != c && Enabled(st, step) {
        Reachable(states, steps, |states| - 1);
        OtherStepUndisturbed(st, step, c);
        Do(step);
      }
    }

    /** The other clients move, and then our next system call turns out to fail or not. */
    method Interfere(c: nat) returns (failed: bool)
      requires Valid() && c in st.calls
      modifies this
      ensures Valid() && Undisturbed(old(st), st, c) && CallOk(st, c)
      ensures clock == old(clock) + 1 && failed == fails(old(clock))
    {
      var moves := others(clock);
      for k := 0 to |moves|
        invariant Valid() && Undisturbed(old(st), st, c) && clock == old(clock)
      {
        ghost var before := st;
        TryOther(c, moves[k]);
        UndisturbedTransitive(old(st), before, st, c);
      }
      failed := fails(clock);
      clock := clock + 1;
      Reachable(states, steps, |states| - 1);
    }

    /** `os.Stat(l.Path(hash))`. */
    method SysStat(c: nat, ghost op: Op) returns (r: StatResult)
      requires op.Put? && At(c, op, Stat)
      modifies this
      ensures At(c, op,
        match r case Present => Done(AlreadyExists) case Absent => CreateTemp case StatError => Done(Failed))
      ensures clock == old(clock) + 1 && (r.StatError? <==> fails(old(clock)))
    {
      var failed := Interfere(c);
      r := if failed then StatError else if st.calls[c].op.hash in st.fs.names then Present else Absent;
      Do(StatTarget(c, failed));
    }

    /** `os.CreateTemp`: retries until the random name is unused. */
    method SysCreateTemp(c: nat, ghost op: Op) returns (ok: bool, tmp: string, ino: nat)
      requires op.Put? && At(c, op, CreateTemp)
      modifies this
      ensures At(c, op, if ok then Copy(tmp, ino) else Done(Failed))
      ensures ok ==> ino in st.fs.files && st.fs.files[ino].data == []
      ensures clock == old(clock) + 1 && (ok <==> !fails(old(clock)))
    {
      var failed := Interfere(c);
      var hash := st.calls[c].op.hash;
      var suffix := "0";
      while TempName(hash, suffix) in st.fs.names
        decreases NamesFrom(st.fs.names.Keys, |TempName(hash, suffix)|)
      {
        assert TempName(hash, suffix) in NamesFrom(st.fs.names.Keys, |TempName(hash, suffix)|);
        suffix := suffix + "0";
      }
      ino := 0;
      while ino in st.fs.files
        decreases InodesFrom(st.fs.files.Keys, ino)
      {
        assert ino in InodesFrom(st.fs.files.Keys, ino);
        ino := ino + 1;
      }
      ok, tmp := !failed, TempName(hash, suffix);
      Do(MakeTemp(c, failed, suffix, ino));
    }

    /** One byte of the request body reaches the temporary file, unless the copy fails. */
    method SysWrite(c: nat, ghost op: Op, ghost tmp: string, ino: nat) returns (ok: bool)
      requires op.Put? && At(c, op, Copy(tmp, ino)) && ino in st.fs.files && st.fs.files[ino].writer == c
      requires |st.fs.files[ino].data| < Limit(op)
      modifies this
      ensures At(c, op, Copy(tmp, ino)) && ino in st.fs.files && st.fs.files[ino].writer == c
      ensures |st.fs.files[ino].data| == |old(st.fs.files)[ino].data| + (if ok then 1 else 0)
      ensures clock == old(clock) + 1 && (ok <==> !fails(old(clock)))
    {
      var failed := Interfere(c);
      ok := !failed;
      if ok {
        Do(CopyChunk(c, 1));
      }
    }

    /** The copy ends, at the end of the body or by an error, and the file is closed. */
    method SysClose(c: nat, ghost op: Op, ghost tmp: string, ino: nat, copied: bool) returns (ok: bool)
      requires op.Put? && At(c, op, Copy(tmp, ino)) && ino in st.fs.files && st.fs.files[ino].writer == c
      requires copied ==> |st.fs.files[ino].data| == Limit(op)
      modifies this
      ensures ok ==> copied && At(c, op, if Limit(op) == op.size then Link(tmp, ino) else Unlink(tmp, ino, ShortWrite))
      ensures !ok ==> At(c, op, Unlink(tmp, ino, Failed))
      ensures clock == old(clock) + 1 && (ok <==> copied && !fails(old(clock)))
    {
      var failed := Interfere(c);
      ok := copied && !failed;
      Do(EndCopy(c, !ok));
    }

    /** `io.Copy(tmp, io.LimitReader(r, size))` followed by `tmp.Close()`. */
    method SysCopy(c: nat, ghost op: Op, ghost tmp: string, ino: nat) returns (ok: bool, n: nat)
      requires op.Put? && At(c, op, Copy(tmp, ino)) && ino in st.fs.files && st.fs.files[ino].data == []
      modifies this
      ensures ok ==> At(c, op, if n == op.size then Link(tmp, ino) else Unlink(tmp, ino, ShortWrite)) && n == Limit(op)
      ensures !ok ==> At(c, op, Unlink(tmp, ino, Failed))
      ensures clock >= old(clock) && (!ok ==> FailedSince(old(clock)))
    {
      Reachable(states, steps, |states| - 1);
      assert CallOk(st, c);
      ok, n := true, 0;
      var limit := Limit(st.calls[c].op);
      while n < limit && ok
        invariant At(c, op, Copy(tmp, ino)) && ino in st.fs.files && st.fs.files[ino].writer == c
        invariant limit == Limit(op) && n == |st.fs.files[ino].data| <= limit
        invariant clock >= old(clock) && (!ok ==> FailedSince(old(clock)))
        decreases limit - n, ok
      {
        ok := SysWrite(c, op, tmp, ino);
        n := if ok then n + 1 else n;
      }
      ok := SysClose(c, op, tmp, ino, ok);
    }

    /** `os.Link(tmpName, dest)`. */
    method SysLink(c: nat, ghost op: Op, ghost tmp: string, ghost ino: nat) returns (r: StatResult)
      requires op.Put? && At(c, op, Link(tmp, ino))
      modifies this
      ensures At(c, op,
        Unlink(tmp, ino, match r case Present => AlreadyExists case Absent => Ok case StatError => Failed))
      ensures clock == old(clock) + 1 && (r.StatError? <==> fails(old(clock)))
    {
      var failed := Interfere(c);
      r := if failed then StatError else if st.calls[c].op.hash in st.fs.names then Present else Absent;
      Do(LinkTarget(c, failed));
    }

    /** The deferred `os.Remove(tmpName)`, whose error is ignored. */
    method SysRemoveTemp(c: nat, ghost op: Op, ghost tmp: string, ghost ino: nat, ghost result: Result)
      requires op.Put? && At(c, op, Unlink(tmp, ino, result))
      modifies this
      ensures At(c, op, Done(result))
      ensures clock == old(clock) + 1
      ensures !fails(old(clock)) ==> tmp !in st.fs.names
    {
      var failed := Interfere(c);
      Do(UnlinkTemp(c, failed));
    }

    /** What the protocol says of a call that has returned. */
    lemma Report(c: nat)
      requires Valid() && c in st.calls
      ensures CallOk(st, c) && Explained(st, c, EventsOf(st.hist, c))
    {
      Reachable(states, steps, |states| - 1);
    }

    /** `Put` returns what its call reports in the protocol, so its effect is the one event of that
        call in the history; and it fails only if one of its system calls did. */
    method Put(c: nat, hash: string, payload: Bytes, size: int) returns (r: Result)
      requires Valid() && c !in st.calls && ValidHash(hash)
      modifies this
      ensures At(c, LocalProtocol.Put(hash, payload, size), Done(r))
      ensures r.Ok? ==> 0 <= size <= |payload| && EventsOf(st.hist, c) == [Stored(c, hash, payload[..size])]
      ensures r.AlreadyExists? ==> EventsOf(st.hist, c) == [Refused(c, hash)]
      ensures r.ShortWrite? ==> (size < 0 || |payload| < size) && EventsOf(st.hist, c) == []
      ensures r.Failed? ==> EventsOf(st.hist, c) == []
      ensures r.Ok? || r.AlreadyExists? || r.ShortWrite? || r.Failed?
      ensures r.Failed? ==> FailedSince(old(clock))
    {
      ghost var op := LocalProtocol.Put(hash, payload, size);
      Do(Begin(c, LocalProtocol.Put(hash, payload, size)));
      var target := SysStat(c, op);
      if target.Present? { r := AlreadyExists; Report(c); return; }
      if target.StatError? { r := Failed; Report(c); return; }
      var created, tmp, ino := SysCreateTemp(c, op);
      if !created { r := Failed; Report(c); return; }
      var copied, n := SysCopy(c, op, tmp, ino);
      if !copied {
        r := Failed;
      } else if n != size {
        r := ShortWrite;
      } else {
        var linked := SysLink(c, op, tmp, ino);
        r := match linked case Present => AlreadyExists case Absent => Ok case StatError => Failed;
      }
      SysRemoveTemp(c, op, tmp, ino, r);
      Report(c);
    }

    /** `os.Open(l.Path(hash))`. */
    method SysOpen(c: nat, ghost op: Op) returns (r: StatResult, ino: nat)
      requires op.Get? && At(c, op, Open)
      modifies this
      ensures At(c, op,
        match r case Present => StatOpen(ino) case Absent => Done(NotFound) case StatError => Done(Failed))
      ensures clock == old(clock) + 1 && (r.StatError? <==> fails(old(clock)))
    {
      var failed := Interfere(c);
      var hash := st.calls[c].op.hash;
      r := if failed then StatError else if hash in st.fs.names then Present else Absent;
      ino := if hash in st.fs.names then st.fs.names[hash] else 0;
      Do(OpenTarget(c, failed));
    }

    /** `f.Stat()`. */
    method SysStatOpened(c: nat, ghost op: Op, ino: nat) returns (ok: bool, size: nat)
      requires op.Get? && At(c, op, StatOpen(ino))
      modifies this
      ensures At(c, op, if ok then Stream(ino, size, []) else Done(Failed))
      ensures clock == old(clock) + 1 && (ok <==> !fails(old(clock)))
    {
      var failed := Interfere(c);
      ok, size := !failed, |st.fs.files[ino].data|;
      Do(StatOpened(c, failed));
    }

    /** One read of the open file. */
    method SysRead(c: nat, ghost op: Op, ino: nat, ghost size: nat, sent: Bytes) returns (ok: bool, more: Bytes)
      requires op.Get? && At(c, op, Stream(ino, size, sent)) && |sent| < size
      modifies this
      ensures At(c, op, if ok then Stream(ino, size, more) else Done(Failed)) && |more| == |sent| + 1
      ensures clock == old(clock) + 1 && (ok <==> !fails(old(clock)))
    {
      var failed := Interfere(c);
      ok, more := !failed, sent + st.fs.files[ino].data[|sent|..|sent| + 1];
      if failed {
        Do(EndRead(c, true));
      } else {
        Do(ReadChunk(c, 1));
      }
    }

    /** The read that finds the end of the file. */
    method SysEndOfFile(c: nat, ghost op: Op, ino: nat, ghost size: nat, ghost sent: Bytes)
      requires op.Get? && At(c, op, Stream(ino, size, sent)) && |sent| == size
      modifies this
      ensures At(c, op, Done(Body(size, sent)))
    {
      Report(c);
      Do(EndRead(c, false));
    }

    /** `Get` and the streaming of its reader, with other clients moving between the reads. */
    method Get(c: nat, hash: string) returns (r: Result)
      requires Valid() && c !in st.calls && ValidHash(hash)
      modifies this
      ensures At(c, LocalProtocol.Get(hash), Done(r))
      ensures r.Body? ==>
        r.size == |r.data| && Uploaded(st, hash, r.data) && EventsOf(st.hist, c) == [Found(c, hash, r.data)]
      ensures r.NotFound? ==> EventsOf(st.hist, c) == [Missing(c, hash)]
      ensures r.Body? || r.NotFound? || r.Failed?
      ensures r.Failed? ==> FailedSince(old(clock))
    {
      ghost var op := LocalProtocol.Get(hash);
      Do(Begin(c, LocalProtocol.Get(hash)));
      var target, ino := SysOpen(c, op);
      if target.Absent? { r := NotFound; Report(c); return; }
      if target.StatError? { r := Failed; return; }
      var ok, size := SysStatOpened(c, op, ino);
      if !ok { r := Failed; return; }
      var sent: Bytes := [];
      while |sent| < size
        invariant At(c, op, Stream(ino, size, sent)) && |sent| <= size && clock >= old(clock)
        decreases size - |sent|
      {
        ok, sent := SysRead(c, op, ino, size, sent);
        if !ok { r := Failed; return; }
      }
      SysEndOfFile(c, op, ino, size, sent);
      r := Body(size, sent);
      Report(c);
    }

    /** `Delete`. */
    method Delete(c: nat, hash: string) returns (r: Result)
      requires Valid() && c !in st.calls && ValidHash(hash)
      modifies this
      ensures At(c, LocalProtocol.Delete(hash), Done(r))
      ensures r.Ok? ==> EventsOf(st.hist, c) == [Removed(c, hash)]
      ensures r.NotFound? ==> EventsOf(st.hist, c) == [NothingToRemove(c, hash)]
      ensures r.Failed? ==> EventsOf(st.hist, c) == []
      ensures r.Ok? || r.NotFound? || r.Failed?
      ensures r.Failed? <==> fails(old(clock))
    {
      Do(Begin(c, LocalProtocol.Delete(hash)));
      var failed := Interfere(c);
      r := if failed then Failed else if hash in st.fs.names then Ok else NotFound;
      Do(RemoveTarget(c, failed));
      Report(c);
    }
  }
}
