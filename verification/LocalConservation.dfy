/** Counting: uploads minus removals of a hash say whether it is visible, in every
    reachable interleaved state. */
module LocalConservation {
  import opened Names
  import opened Contract
  import opened LocalProtocol
  import opened LocalInvariant
  import opened LocalRefinement

  /** The uploads of `hash` that took effect. */
  function PutWinners(s: State, hash: string): set<nat> {
    set c | c in s.calls && Succeeded(s.calls[c]) && s.calls[c].op.hash == hash
  }

  /** The deletions of `hash` that removed it. */
  function DeleteWinners(s: State, hash: string): set<nat> {
    set c | c in s.calls && Deleted(s.calls[c]) && s.calls[c].op.hash == hash
  }

  predicate Deleted(call: Call) {
    call.op.Delete? && call.phase == Done(Ok)
  }

  predicate Adds(s: State, t: State, stored: bool) {
    |t.hist| > |s.hist| && (if stored then t.hist[|s.hist|].Stored? else t.hist[|s.hist|].Removed?)
  }

  /** Only the call that moves can become a winner, and it does so with the matching event. */
  ghost predicate WinsWithEvent(s: State, t: State, c: nat) {
    && t.calls.Keys == s.calls.Keys + {c}
    && (forall d :: d in s.calls && d != c ==> t.calls[d] == s.calls[d])
    && (c in s.calls ==> t.calls[c].op == s.calls[c].op)
    && (c in s.calls && (Succeeded(s.calls[c]) || Deleted(s.calls[c])) ==> !Adds(s, t, true) && !Adds(s, t, false))
    && (Succeeded(t.calls[c]) <==> Adds(s, t, true) || (c in s.calls && Succeeded(s.calls[c])))
    && (Deleted(t.calls[c]) <==> Adds(s, t, false) || (c in s.calls && Deleted(s.calls[c])))
    && (|t.hist| > |s.hist| ==> t.hist[|s.hist|].hash == t.calls[c].op.hash)
  }

  lemma QuietStepWins(s: State, step: Step)
    requires Ready(s, step) && Enabled(s, step) && !step.LinkTarget? && !step.RemoveTarget? && !step.UnlinkTemp?
    ensures WinsWithEvent(s, Next(s, step), step.call)
  {
  }

  lemma NameStepWins(s: State, step: Step)
    requires Ready(s, step) && Enabled(s, step) && (step.LinkTarget? || step.RemoveTarget? || step.UnlinkTemp?)
    ensures WinsWithEvent(s, Next(s, step), step.call)
  {
  }

  lemma StepWins(s: State, step: Step)
    requires Ready(s, step) && Enabled(s, step)
    ensures WinsWithEvent(s, Next(s, step), step.call)
  {
    if step.LinkTarget? || step.RemoveTarget? || step.UnlinkTemp? {
      NameStepWins(s, step);
    } else {
      QuietStepWins(s, step);
    }
  }

  lemma PutWinnersChange(s: State, t: State, c: nat, hash: string)
    requires WinsWithEvent(s, t, c)
    ensures var won := Adds(s, t, true) && t.hist[|s.hist|].hash == hash;
      PutWinners(t, hash) == PutWinners(s, hash) + (if won then {c} else {}) && (won ==> c !in PutWinners(s, hash))
  {
  }

  lemma DeleteWinnersChange(s: State, t: State, c: nat, hash: string)
    requires WinsWithEvent(s, t, c)
    ensures var won := Adds(s, t, false) && t.hist[|s.hist|].hash == hash;
      DeleteWinners(t, hash) == DeleteWinners(s, hash) + (if won then {c} else {})
      && (won ==> c !in DeleteWinners(s, hash))
  {
  }

  lemma CountsChange(s: State, t: State, c: nat, hash: string)
    requires WinsWithEvent(s, t, c)
    requires t.hist == s.hist || (|t.hist| == |s.hist| + 1 && t.hist[..|s.hist|] == s.hist)
    requires |PutWinners(s, hash)| == Stores(s.hist, hash) && |DeleteWinners(s, hash)| == Removals(s.hist, hash)
    ensures |PutWinners(t, hash)| == Stores(t.hist, hash) && |DeleteWinners(t, hash)| == Removals(t.hist, hash)
  {
    PutWinnersChange(s, t, c, hash);
    DeleteWinnersChange(s, t, c, hash);
  }

  lemma StepCounts(s: State, step: Step, hash: string)
    requires FsInv(s) && Enabled(s, step)
    requires |PutWinners(s, hash)| == Stores(s.hist, hash) && |DeleteWinners(s, hash)| == Removals(s.hist, hash)
    ensures |PutWinners(Next(s, step), hash)| == Stores(Next(s, step).hist, hash)
    ensures |DeleteWinners(Next(s, step), hash)| == Removals(Next(s, step).hist, hash)
  {
    StepReady(s, step);
    StepRefines(s, step);
    StepWins(s, step);
    CountsChange(s, Next(s, step), step.call, hash);
  }

  lemma {:induction false} WinnersCount(b: seq<State>, steps: seq<Step>, i: nat, hash: string)
    requires Behaviour(b, steps) && i < |b|
    ensures |PutWinners(b[i], hash)| == Stores(b[i].hist, hash)
    ensures |DeleteWinners(b[i], hash)| == Removals(b[i].hist, hash)
  {
    if i == 0 {
      assert PutWinners(b[0], hash) == {} && DeleteWinners(b[0], hash) == {};
    } else {
      WinnersCount(b, steps, i - 1, hash);
      MoveCounts(b, steps, i - 1, hash);
    }
  }

  lemma MoveCounts(b: seq<State>, steps: seq<Step>, i: nat, hash: string)
    requires Behaviour(b, steps) && i < |steps|
    requires |PutWinners(b[i], hash)| == Stores(b[i].hist, hash)
    requires |DeleteWinners(b[i], hash)| == Removals(b[i].hist, hash)
    ensures |PutWinners(b[i + 1], hash)| == Stores(b[i + 1].hist, hash)
    ensures |DeleteWinners(b[i + 1], hash)| == Removals(b[i + 1].hist, hash)
  {
    Reachable(b, steps, i);
    assert MovesAt(b, steps, i);
    StepCounts(b[i], steps[i], hash);
  }

  /** Per-hash conservation in every reachable interleaved state. */
  lemma HashConservation(b: seq<State>, steps: seq<Step>, i: nat, hash: string)
    requires Behaviour(b, steps) && i < |b|
    ensures |PutWinners(b[i], hash)| == |DeleteWinners(b[i], hash)| + (if hash in Visible(b[i]) then 1 else 0)
  {
    WinnersCount(b, steps, i, hash);
    Reachable(b, steps, i);
    Conservation(b[i].hist, hash);
  }

  /** However many uploads of one hash race, without a deletion at most one succeeds. */
  lemma AtMostOneWinner(b: seq<State>, steps: seq<Step>, i: nat, c: nat, d: nat, hash: string)
    requires Behaviour(b, steps) && i < |b|
    requires c in PutWinners(b[i], hash) && d in PutWinners(b[i], hash)
    requires forall k :: k in b[i].calls ==> b[i].calls[k].op != Delete(hash)
    ensures c == d
  {
    HashConservation(b, steps, i, hash);
    assert DeleteWinners(b[i], hash) == {};
    if c != d {
      SmallerSet({c}, PutWinners(b[i], hash));
    }
  }

  lemma {:induction false} OnlyEvent(hist: seq<Event>, c: nat, e: Event) returns (p: nat)
    requires EventsOf(hist, c) == [e]
    ensures p < |hist| && hist[p] == e
  {
    var n := |hist| - 1;
    if hist[n].call == c {
      assert EventsOf(hist, c) == EventsOf(hist[..n], c) + [hist[n]];
      assert [e][|EventsOf(hist[..n], c)|] == hist[n];
      p := n;
    } else {
      p := OnlyEvent(hist[..n], c, e);
    }
  }

  /** Coherence of concurrent downloads: a completed download took effect at one point of the
      history, and returned the bytes of the latest upload of that hash before that point,
      with no removal in between. */
  lemma DownloadsAreCoherent(b: seq<State>, steps: seq<Step>, i: nat, c: nat) returns (p: nat, j: nat)
    requires Behaviour(b, steps) && i < |b| && c in b[i].calls
    requires b[i].calls[c].op.Get? && b[i].calls[c].phase.Done? && b[i].calls[c].phase.result.Body?
    ensures p < |b[i].hist| && b[i].hist[p] == Found(c, b[i].calls[c].op.hash, b[i].calls[c].phase.result.data)
    ensures LatestStore(b[i].hist[..p], b[i].calls[c].op.hash, j)
    ensures b[i].hist[j].data == b[i].calls[c].phase.result.data
  {
    Linearizable(b, steps, i);
    var call := b[i].calls[c];
    assert Explained(b[i], c, EventsOf(b[i].hist, c));
    p := OnlyEvent(b[i].hist, c, Found(c, call.op.hash, call.phase.result.data));
    ReadsAreCoherent(b[i].hist, p);
    j :| LatestStore(b[i].hist[..p], call.op.hash, j) && b[i].hist[j].data == call.phase.result.data;
  }
}
