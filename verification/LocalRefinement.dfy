/** The local backend refines the atomic put-if-absent map under every interleaving. */
module LocalRefinement {
  import opened Names
  import opened Contract
  import opened LocalProtocol
  import opened LocalInvariant

  // ---------------------------------------------------------------- refinement

  /** From `s` to `t`, either nothing visible happens or call `c` performs one atomic operation. */
  predicate Refines(s: State, t: State, c: nat) {
    || (t.hist == s.hist && Visible(t) == Visible(s))
    || (|t.hist| == |s.hist| + 1 && t.hist == s.hist + [t.hist[|s.hist|]]
        && t.hist[|s.hist|].call == c
        && Allows(Visible(s), t.hist[|s.hist|])
        && Visible(t) == Effect(Visible(s), t.hist[|s.hist|]))
  }

  /** What a transition of an existing call may rely on: its own phase and its target's name. */
  ghost predicate Ready(s: State, step: Step) {
    !step.Begin? ==>
      step.call in s.calls && CallOk(s, step.call)
      && (s.calls[step.call].op.hash in s.fs.names ==> NameOk(s, s.calls[step.call].op.hash))
  }

  lemma StepReady(s: State, step: Step)
    requires FsInv(s) && Enabled(s, step)
    ensures Ready(s, step)
  {
  }

  /** What `MakeTemp` and `CopyChunk` do to names: at most a temporary one is new. */
  lemma InodeStepNames(s: State, step: Step)
    requires Enabled(s, step) && (step.MakeTemp? || step.CopyChunk?)
    ensures Next(s, step).hist == s.hist
    ensures forall n :: n in s.fs.names ==> n in Next(s, step).fs.names && Next(s, step).fs.names[n] == s.fs.names[n]
    ensures forall n :: n in Next(s, step).fs.names && n !in s.fs.names ==> IsTemp(n)
  {
    if step.MakeTemp? { TempNameIsTemp(s.calls[step.call].op.hash, step.suffix); }
  }

  /** The same unmarked names for the same published inodes show the same artifacts, as long as the
      step is of a call that has published nothing. */
  lemma FrameVisible(s: State, t: State, c: nat)
    requires FsInv(s) && Frame(s, t, c) && c in s.calls
    requires forall n :: n in s.fs.names ==> n in t.fs.names && t.fs.names[n] == s.fs.names[n]
    requires forall n :: n in t.fs.names && n !in s.fs.names ==> IsTemp(n)
    ensures Visible(t) == Visible(s)
  {
    forall n | n in s.fs.names && !IsTemp(n)
      ensures s.fs.names[n] in t.fs.files && t.fs.files[s.fs.names[n]] == s.fs.files[s.fs.names[n]]
    {
      assert NameOk(s, n) && FileKept(s, t, c, s.fs.names[n]);
    }
    forall n | n in s.fs.names ensures s.fs.names[n] in s.fs.files { assert NameOk(s, n); }
  }

  lemma InodeStepRefines(s: State, step: Step)
    requires FsInv(s) && Enabled(s, step) && (step.MakeTemp? || step.CopyChunk?)
    ensures Next(s, step).hist == s.hist && Visible(Next(s, step)) == Visible(s)
  {
    InodeStepNames(s, step);
    StepFrame(s, step);
    FrameVisible(s, Next(s, step), step.call);
  }

  /** The successful link makes the upload visible under its hash, all at once. */
  lemma LinkRefines(s: State, step: Step)
    requires Ready(s, step) && Enabled(s, step) && step.LinkTarget?
    ensures Refines(s, Next(s, step), step.call)
  {
    var t, h := Next(s, step), s.calls[step.call].op.hash;
    ValidHashIsNotTemp(h);
    if !step.failed && h !in s.fs.names {
      assert Visible(t) == Effect(Visible(s), t.hist[|s.hist|]);
    }
  }

  /** Removing the second name of a published inode is not visible. */
  lemma UnlinkRefines(s: State, step: Step)
    requires Ready(s, step) && Enabled(s, step) && step.UnlinkTemp?
    ensures Next(s, step).hist == s.hist && Visible(Next(s, step)) == Visible(s)
  {
  }

  lemma RemoveRefines(s: State, step: Step)
    requires Ready(s, step) && Enabled(s, step) && step.RemoveTarget?
    ensures Refines(s, Next(s, step), step.call)
  {
    var t, h := Next(s, step), s.calls[step.call].op.hash;
    ValidHashIsNotTemp(h);
    if !step.failed && h in s.fs.names {
      assert Visible(t) == Effect(Visible(s), t.hist[|s.hist|]);
    }
  }

  lemma QuietStepRefines(s: State, step: Step)
    requires Ready(s, step) && Enabled(s, step) && !ChangesFs(step)
    ensures Refines(s, Next(s, step), step.call)
  {
    if !step.Begin? {
      ValidHashIsNotTemp(s.calls[step.call].op.hash);
    }
  }

  /** Each system call either changes nothing a client can see or is exactly one operation
      of the put-if-absent map, allowed in the map as it stands. */
  lemma StepRefines(s: State, step: Step)
    requires FsInv(s) && Enabled(s, step)
    ensures Refines(s, Next(s, step), step.call)
  {
    StepReady(s, step);
    if step.MakeTemp? || step.CopyChunk? {
      InodeStepRefines(s, step);
    } else if step.LinkTarget? {
      LinkRefines(s, step);
    } else if step.UnlinkTemp? {
      UnlinkRefines(s, step);
    } else if step.RemoveTarget? {
      RemoveRefines(s, step);
    } else {
      QuietStepRefines(s, step);
    }
  }

  // ---------------------------------------------------------------- linearization points

  function EventsOf(hist: seq<Event>, c: nat): seq<Event> {
    if hist == [] then []
    else EventsOf(hist[..|hist| - 1], c) + (if hist[|hist| - 1].call == c then [hist[|hist| - 1]] else [])
  }

  lemma EventsOfExtend(hist: seq<Event>, e: Event, c: nat)
    ensures EventsOf(hist + [e], c) == EventsOf(hist, c) + (if e.call == c then [e] else [])
  {
    assert (hist + [e])[..|hist|] == hist;
  }

  lemma FirstEvent(hist: seq<Event>, e: Event)
    requires EventsOf(hist, e.call) == []
    ensures EventsOf(hist + [e], e.call) == [e]
  {
    EventsOfExtend(hist, e, e.call);
  }

  /** `evs`, all the events of call `c`, is what its phase says: nothing before its
      linearization point, and afterwards exactly the operation it reports. */
  predicate Explained(s: State, c: nat, evs: seq<Event>)
    requires c in s.calls
  {
    var call := s.calls[c];
    var h := call.op.hash;
    match call.op
    case Put(_, payload, size) =>
      if call.phase.Unlink? || call.phase.Done? then
        match call.phase.result
        case Ok => 0 <= size <= |payload| && evs == [Stored(c, h, payload[..size])]
        case AlreadyExists => evs == [Refused(c, h)]
        case _ => evs == []
      else evs == []
    case Get(_) => (
      match call.phase
      case StatOpen(ino) => ino in s.fs.files && evs == [Found(c, h, s.fs.files[ino].data)]
      case Stream(ino, _, _) => ino in s.fs.files && evs == [Found(c, h, s.fs.files[ino].data)]
      case Done(result) => (
        match result
        case Body(_, data) => evs == [Found(c, h, data)]
        case NotFound => evs == [Missing(c, h)]
        case _ => evs == [] || (|evs| == 1 && evs[0].Found? && evs[0].hash == h))
      case _ => evs == [])
    case Delete(_) =>
      if call.phase.Done? then
        match call.phase.result
        case Ok => evs == [Removed(c, h)]
        case NotFound => evs == [NothingToRemove(c, h)]
        case _ => evs == []
      else evs == []
  }

  ghost predicate HistInv(s: State) {
    && Legal(s.hist)
    && Replay(s.hist) == Visible(s)
    && (forall c :: c in s.calls ==> Explained(s, c, EventsOf(s.hist, c)))
    && (forall c :: c !in s.calls ==> EventsOf(s.hist, c) == [])
  }

  ghost predicate Inv(s: State) {
    FsInv(s) && HistInv(s)
  }

  /** The transitions of a `Put` that are no operation of the map. */
  lemma PutQuietExplained(s: State, step: Step)
    requires Ready(s, step) && Enabled(s, step)
    requires step.MakeTemp? || step.CopyChunk? || step.EndCopy? || step.UnlinkTemp?
    requires Explained(s, step.call, EventsOf(s.hist, step.call))
    ensures var t := Next(s, step); step.call in t.calls && Explained(t, step.call, EventsOf(t.hist, step.call))
  {
    assert Next(s, step).hist == s.hist;
  }

  lemma StatExplained(s: State, step: Step)
    requires Ready(s, step) && Enabled(s, step) && step.StatTarget?
    requires Explained(s, step.call, EventsOf(s.hist, step.call))
    ensures var t := Next(s, step); step.call in t.calls && Explained(t, step.call, EventsOf(t.hist, step.call))
  {
    var t, c := Next(s, step), step.call;
    var h := s.calls[c].op.hash;
    assert EventsOf(s.hist, c) == [];
    if step.failed || h !in s.fs.names {
      assert t.hist == s.hist;
    } else {
      assert t.hist == s.hist + [Refused(c, h)];
      FirstEvent(s.hist, Refused(c, h));
    }
  }

  lemma LinkExplained(s: State, step: Step)
    requires Ready(s, step) && Enabled(s, step) && step.LinkTarget?
    requires Explained(s, step.call, EventsOf(s.hist, step.call))
    ensures var t := Next(s, step); step.call in t.calls && Explained(t, step.call, EventsOf(t.hist, step.call))
  {
    var t, c := Next(s, step), step.call;
    var h, ino := s.calls[c].op.hash, s.calls[c].phase.ino;
    assert EventsOf(s.hist, c) == [];
    if step.failed {
      assert t.hist == s.hist;
    } else {
      var e := if h in s.fs.names then Refused(c, h) else Stored(c, h, s.fs.files[ino].data);
      assert t.hist == s.hist + [e];
      FirstEvent(s.hist, e);
    }
  }

  lemma OpenExplained(s: State, step: Step)
    requires Ready(s, step) && Enabled(s, step) && step.OpenTarget?
    requires Explained(s, step.call, EventsOf(s.hist, step.call))
    ensures var t := Next(s, step); step.call in t.calls && Explained(t, step.call, EventsOf(t.hist, step.call))
  {
    var t, c := Next(s, step), step.call;
    var h := s.calls[c].op.hash;
    ValidHashIsNotTemp(h);
    assert EventsOf(s.hist, c) == [];
    if step.failed {
      assert t.hist == s.hist;
    } else {
      var e := if h in s.fs.names then Found(c, h, s.fs.files[s.fs.names[h]].data) else Missing(c, h);
      assert t.hist == s.hist + [e];
      FirstEvent(s.hist, e);
    }
  }

  lemma RemoveExplained(s: State, step: Step)
    requires Ready(s, step) && Enabled(s, step) && step.RemoveTarget?
    requires Explained(s, step.call, EventsOf(s.hist, step.call))
    ensures var t := Next(s, step); step.call in t.calls && Explained(t, step.call, EventsOf(t.hist, step.call))
  {
    var t, c := Next(s, step), step.call;
    var h := s.calls[c].op.hash;
    assert EventsOf(s.hist, c) == [];
    if step.failed {
      assert t.hist == s.hist;
    } else {
      var e := if h in s.fs.names then Removed(c, h) else NothingToRemove(c, h);
      assert t.hist == s.hist + [e];
      FirstEvent(s.hist, e);
    }
  }

  lemma StreamExplained(s: State, step: Step)
    requires Ready(s, step) && Enabled(s, step) && (step.StatOpened? || step.ReadChunk? || step.EndRead?)
    requires Explained(s, step.call, EventsOf(s.hist, step.call))
    ensures var t := Next(s, step); step.call in t.calls && Explained(t, step.call, EventsOf(t.hist, step.call))
  {
    assert Next(s, step).hist == s.hist;
    if step.EndRead? && !step.failed {
      var phase := s.calls[step.call].phase;
      assert phase.sent == s.fs.files[phase.ino].data;
    }
  }

  lemma OthersExplained(s: State, step: Step, d: nat)
    requires FsInv(s) && Enabled(s, step) && d != step.call
    ensures EventsOf(Next(s, step).hist, d) == EventsOf(s.hist, d)
    ensures d in s.calls && Explained(s, d, EventsOf(s.hist, d)) ==>
      d in Next(s, step).calls && Explained(Next(s, step), d, EventsOf(s.hist, d))
  {
    var t := Next(s, step);
    StepRefines(s, step);
    StepFrame(s, step);
    if t.hist != s.hist {
      EventsOfExtend(s.hist, t.hist[|s.hist|], d);
    }
    if d in s.calls && Explained(s, d, EventsOf(s.hist, d)) {
      FrameExplained(s, t, step.call, d, EventsOf(s.hist, d));
    }
  }

  /** What a step of another call leaves alone is enough for the explanation of `d`. */
  lemma FrameExplained(s: State, t: State, c: nat, d: nat, evs: seq<Event>)
    requires Frame(s, t, c) && d in s.calls && d != c && CallOk(s, d) && Explained(s, d, evs)
    ensures d in t.calls && Explained(t, d, evs)
  {
    match s.calls[d].phase
    case StatOpen(ino) => assert FileKept(s, t, c, ino);
    case Stream(ino, _, _) => assert FileKept(s, t, c, ino);
    case _ =>
  }

  lemma StepKeepsInv(s: State, step: Step)
    requires Inv(s) && Enabled(s, step)
    ensures Inv(Next(s, step))
  {
    var t, c := Next(s, step), step.call;
    StepKeepsFsInv(s, step);
    StepRefines(s, step);
    if t.hist != s.hist {
      Extend(s.hist, t.hist[|s.hist|]);
    }
    forall d | d in t.calls ensures Explained(t, d, EventsOf(t.hist, d)) {
      if d != c {
        OthersExplained(s, step, d);
      } else if step.Begin? {
        assert EventsOf(s.hist, d) == [];
      } else if step.OpenTarget? {
        OpenExplained(s, step);
      } else if step.RemoveTarget? {
        RemoveExplained(s, step);
      } else if step.StatOpened? || step.ReadChunk? || step.EndRead? {
        StreamExplained(s, step);
      } else if step.StatTarget? {
        StatExplained(s, step);
      } else if step.LinkTarget? {
        LinkExplained(s, step);
      } else {
        PutQuietExplained(s, step);
      }
    }
    forall d | d !in t.calls ensures EventsOf(t.hist, d) == [] {
      StepFrame(s, step);
      OthersExplained(s, step, d);
    }
  }

  // ---------------------------------------------------------------- whole behaviours

  lemma {:induction false} Reachable(b: seq<State>, steps: seq<Step>, i: nat)
    requires Behaviour(b, steps) && i < |b|
    ensures Inv(b[i])
  {
    if i == 0 {
      InitInv();
    } else {
      Reachable(b, steps, i - 1);
      MoveKeepsInv(b, steps, i);
    }
  }

  lemma InitInv()
    ensures Inv(INIT)
  {
    assert Visible(INIT) == map[];
  }

  lemma MoveKeepsInv(b: seq<State>, steps: seq<Step>, i: nat)
    requires Behaviour(b, steps) && 0 < i < |b| && Inv(b[i - 1])
    ensures Inv(b[i])
  {
    assert MovesAt(b, steps, i - 1);
    StepKeepsInv(b[i - 1], steps[i - 1]);
  }

  /** Linearizability, the sequential part: in every reachable state the operations that took
      effect form a legal history of the map, it leaves exactly the visible artifacts, and
      every call has the one event its result reports (none if it failed before any). */
  lemma Linearizable(b: seq<State>, steps: seq<Step>, i: nat)
    requires Behaviour(b, steps) && i < |b|
    ensures Legal(b[i].hist) && Replay(b[i].hist) == Visible(b[i])
    ensures forall c :: c in b[i].calls ==> Explained(b[i], c, EventsOf(b[i].hist, c))
  {
    Reachable(b, steps, i);
  }

  lemma StepKeepsDone(s: State, step: Step, c: nat)
    requires Inv(s) && Enabled(s, step)
    ensures s.hist <= Next(s, step).hist
    ensures c in s.calls && s.calls[c].phase.Done? ==>
      c in Next(s, step).calls && Next(s, step).calls[c] == s.calls[c]
      && EventsOf(Next(s, step).hist, c) == EventsOf(s.hist, c)
  {
    StepRefines(s, step);
    if c in s.calls && s.calls[c].phase.Done? {
      StepFrame(s, step);
      OthersExplained(s, step, c);
    }
  }

  lemma {:induction false} FutureKeeps(b: seq<State>, steps: seq<Step>, i: nat, j: nat, c: nat)
    requires Behaviour(b, steps) && i <= j < |b|
    ensures b[i].hist <= b[j].hist
    ensures c in b[i].calls && b[i].calls[c].phase.Done? ==>
      c in b[j].calls && b[j].calls[c] == b[i].calls[c] && EventsOf(b[j].hist, c) == EventsOf(b[i].hist, c)
  {
    if i < j {
      FutureKeeps(b, steps, i, j - 1, c);
      MoveKeepsDone(b, steps, j - 1, c);
    }
  }

  lemma MoveKeepsDone(b: seq<State>, steps: seq<Step>, i: nat, c: nat)
    requires Behaviour(b, steps) && i < |steps|
    ensures b[i].hist <= b[i + 1].hist
    ensures c in b[i].calls && b[i].calls[c].phase.Done? ==>
      c in b[i + 1].calls && b[i + 1].calls[c] == b[i].calls[c] && EventsOf(b[i + 1].hist, c) == EventsOf(b[i].hist, c)
  {
    Reachable(b, steps, i);
    assert MovesAt(b, steps, i);
    StepKeepsDone(b[i], steps[i], c);
  }

  lemma {:induction false} EventPosition(hist: seq<Event>, p: nat)
    requires p < |hist|
    ensures EventsOf(hist, hist[p].call) != []
  {
    if p < |hist| - 1 {
      EventPosition(hist[..|hist| - 1], p);
    }
  }

  lemma {:induction false} EventAfterPrefix(hist: seq<Event>, n: nat, p: nat)
    requires n <= p < |hist|
    ensures |EventsOf(hist, hist[p].call)| > |EventsOf(hist[..n], hist[p].call)|
  {
    var m := |hist| - 1;
    EventsMonotone(hist[..m], n, hist[p].call);
    assert hist[..m][..n] == hist[..n];
    if p < m {
      EventAfterPrefix(hist[..m], n, p);
    }
  }

  lemma {:induction false} EventsMonotone(hist: seq<Event>, n: nat, c: nat)
    requires n <= |hist|
    ensures |EventsOf(hist[..n], c)| <= |EventsOf(hist, c)|
  {
    if n < |hist| {
      EventsMonotone(hist[..|hist| - 1], n, c);
      assert hist[..|hist| - 1][..n] == hist[..n];
    } else {
      assert hist[..n] == hist;
    }
  }

  /** Linearizability, the real-time part: if a call had returned before another began, its
      event comes first in the history. */
  lemma RealTimeOrder(b: seq<State>, steps: seq<Step>, i: nat, j: nat, p: nat, q: nat)
    requires Behaviour(b, steps) && i <= j < |b| && p < |b[j].hist| && q < |b[j].hist|
    requires b[j].hist[p].call in b[i].calls && b[i].calls[b[j].hist[p].call].phase.Done?
    requires b[j].hist[q].call !in b[i].calls
    ensures p < q
  {
    var c, d, n := b[j].hist[p].call, b[j].hist[q].call, |b[i].hist|;
    FutureKeeps(b, steps, i, j, c);
    assert b[j].hist[..n] == b[i].hist;
    if p >= n {
      EventAfterPrefix(b[j].hist, n, p);
    }
    if q < n {
      Reachable(b, steps, i);
      EventPosition(b[i].hist, q);
    }
  }

  /** No torn reads: a completed download returned exactly the announced bytes of one upload
      of that hash that took effect, whatever was deleted or uploaded meanwhile. */
  lemma NoTornReads(b: seq<State>, steps: seq<Step>, i: nat, c: nat)
    requires Behaviour(b, steps) && i < |b| && c in b[i].calls
    requires b[i].calls[c].op.Get? && b[i].calls[c].phase.Done? && b[i].calls[c].phase.result.Body?
    ensures var r := b[i].calls[c].phase.result;
      r.size == |r.data| && Uploaded(b[i], b[i].calls[c].op.hash, r.data)
  {
    Reachable(b, steps, i);
    assert CallOk(b[i], c);
  }

  /** Temporary files are invisible: what `List` keeps of the directory (names without the
      temporary mark) is exactly the visible artifacts, and all of them are valid hashes. */
  lemma TempsInvisible(b: seq<State>, steps: seq<Step>, i: nat, name: string)
    requires Behaviour(b, steps) && i < |b|
    ensures name in Visible(b[i]) <==> name in b[i].fs.names && !IsTemp(name)
    ensures name in Visible(b[i]) ==> ValidHash(name)
  {
    Reachable(b, steps, i);
    assert name in b[i].fs.names ==> NameOk(b[i], name);
  }

  // ---------------------------------------------------------------- no leftover temporary files

  predicate Owned(s: State, n: string)
    requires n in s.fs.names
  {
    s.fs.names[n] in s.fs.files &&
    var c := s.fs.files[s.fs.names[n]].writer;
    c in s.calls && (s.calls[c].phase.Copy? || s.calls[c].phase.Link? || s.calls[c].phase.Unlink?)
    && s.calls[c].phase.tmp == n
  }

  lemma StepKeepsOwned(s: State, step: Step, n: string)
    requires Enabled(s, step) && !(step.UnlinkTemp? && step.failed)
    requires step.Begin? || CallOk(s, step.call)
    requires n in s.fs.names ==> Owned(s, n)
    requires n in Next(s, step).fs.names && IsTemp(n)
    ensures Owned(Next(s, step), n)
  {
    if !step.Begin? {
      ValidHashIsNotTemp(s.calls[step.call].op.hash);
    }
  }

  /** As long as no removal of a temporary name failed, every temporary file belongs to an
      upload that is still running, so none is left once all calls have returned. */
  lemma {:induction false} NoLeftoverTemps(b: seq<State>, steps: seq<Step>, i: nat, n: string)
    requires Behaviour(b, steps) && i < |b|
    requires forall k :: 0 <= k < i ==> !(steps[k].UnlinkTemp? && steps[k].failed)
    requires n in b[i].fs.names && IsTemp(n)
    ensures Owned(b[i], n)
  {
    if i > 0 {
      if n in b[i - 1].fs.names {
        NoLeftoverTemps(b, steps, i - 1, n);
      }
      Reachable(b, steps, i - 1);
      MoveKeepsOwned(b, steps, i, n);
    }
  }

  lemma MoveKeepsOwned(b: seq<State>, steps: seq<Step>, i: nat, n: string)
    requires Behaviour(b, steps) && 0 < i < |b| && !(steps[i - 1].UnlinkTemp? && steps[i - 1].failed)
    requires Inv(b[i - 1])
    requires n in b[i - 1].fs.names ==> Owned(b[i - 1], n)
    requires n in b[i].fs.names && IsTemp(n)
    ensures Owned(b[i], n)
  {
    assert MovesAt(b, steps, i - 1);
    OneMoveKeepsOwned(b[i - 1], steps[i - 1], n);
  }

  lemma OneMoveKeepsOwned(s: State, step: Step, n: string)
    requires Inv(s) && Enabled(s, step) && !(step.UnlinkTemp? && step.failed)
    requires n in s.fs.names ==> Owned(s, n)
    requires n in Next(s, step).fs.names && IsTemp(n)
    ensures Owned(Next(s, step), n)
  {
    MoverIsOk(s, step);
    StepKeepsOwned(s, step, n);
  }

  lemma MoverIsOk(s: State, step: Step)
    requires Inv(s) && Enabled(s, step)
    ensures step.Begin? || CallOk(s, step.call)
  {
  }
}
