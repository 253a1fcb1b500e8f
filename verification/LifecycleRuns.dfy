/** What holds over every run of the lifecycle. */
module LifecycleRuns {
  import opened Basics
  import opened Lifecycle
  import LifecycleProof
  import Runs

  ghost predicate IsRun(ss: seq<State>, steps: seq<Action>) {
    Runs.IsRun(Next, Init(), ss, steps)
  }

  lemma RunKeeps(ss: seq<State>, steps: seq<Action>, i: nat)
    requires IsRun(ss, steps) && i < |ss|
    ensures Inv(ss[i])
  {
    LifecycleProof.InitOk();
    forall s, a | Inv(s) && Next(s, a).Some?
      ensures Inv(Next(s, a).value)
    {
      LifecycleProof.StepKeeps(s, a);
    }
    Runs.Invariant(Next, s => Inv(s), Init(), ss, steps, i);
  }

  // ---------------------------------------------------------------- no connection leaks

  /**
   * In every state of every run, a connection that was handed to Track is tracked, or in the care
   * of an unfinished call, or closed; and once no call cares for it, it is tracked exactly if it was
   * accepted and is still open.
   */
  lemma ConnectionsNeverLeak(ss: seq<State>, steps: seq<Action>, i: nat, c: Id)
    requires IsRun(ss, steps) && i < |ss| && c in ss[i].conn
    ensures ss[i].conn[c].rawClosed || c in ss[i].tracker.conns || exists t :: CaredBy(ss[i], t, c)
    ensures (forall t :: !CaredBy(ss[i], t, c)) ==>
              (c in ss[i].tracker.conns <==> ss[i].conn[c].accepted && !ss[i].conn[c].rawClosed)
  {
    RunKeeps(ss, steps, i);
    assert NotLeaked(ss[i], c);
    assert ConnOk(ss[i], c);
  }

  /** With no call running at all, the tracker holds exactly the accepted connections still open. */
  lemma QuiescentTracker(ss: seq<State>, steps: seq<Action>, i: nat)
    requires IsRun(ss, steps) && i < |ss| && ss[i].threads == map[]
    ensures ss[i].tracker.conns == set c | c in ss[i].conn && ss[i].conn[c].accepted && !ss[i].conn[c].rawClosed
  {
    RunKeeps(ss, steps, i);
    forall c | c in ss[i].conn
      ensures c in ss[i].tracker.conns <==> ss[i].conn[c].accepted && !ss[i].conn[c].rawClosed
    {
      ConnectionsNeverLeak(ss, steps, i, c);
    }
  }

  /** The connections a close took over are closed or still on its list. */
  ghost predicate Draining(s: State, t: Id, origin: Origin, taken: set<Id>) {
    && t in s.threads && s.threads[t].Closing? && s.threads[t].origin == origin
    && forall c | c in taken :: c in s.conn && (s.conn[c].rawClosed || c in s.threads[t].todo)
  }

  lemma DrainingStep(s: State, a: Action, t: Id, origin: Origin, taken: set<Id>)
    requires Inv(s) && Next(s, a).Some? && Draining(s, t, origin, taken) && a != CloserDone(t)
    ensures Draining(Next(s, a).value, t, origin, taken)
  {
    if DialStep(s, a).Some? {
      DialKeepsDraining(s, a, t, origin, taken);
    } else if CloserStep(s, a).Some? {
      CloserKeepsDraining(s, a, t, origin, taken);
    } else {
      OthersKeepDraining(s, a, t, origin, taken);
    }
  }

  lemma CloserKeepsDraining(s: State, a: Action, t: Id, origin: Origin, taken: set<Id>)
    requires CloserStep(s, a).Some? && Draining(s, t, origin, taken) && a != CloserDone(t)
    ensures Draining(CloserStep(s, a).value, t, origin, taken)
  {
  }

  lemma OthersKeepDraining(s: State, a: Action, t: Id, origin: Origin, taken: set<Id>)
    requires DialStep(s, a).None? && CloserStep(s, a).None? && Next(s, a).Some? && Draining(s, t, origin, taken)
    ensures Draining(Next(s, a).value, t, origin, taken)
  {
  }

  lemma DrainingStarts(s: State, t: Id, origin: Origin)
    requires Inv(s) && Next(s, ForceClose(t, origin)).Some?
    ensures Draining(Next(s, ForceClose(t, origin)).value, t, origin, s.tracker.conns)
  {
  }

  lemma DialKeepsDraining(s: State, a: Action, t: Id, origin: Origin, taken: set<Id>)
    requires DialStep(s, a).Some? && Draining(s, t, origin, taken)
    ensures Draining(DialStep(s, a).value, t, origin, taken)
  {
  }

  ghost predicate AllClosed(s: State, taken: set<Id>) {
    forall c | c in taken :: c in s.conn && s.conn[c].rawClosed
  }

  lemma ClosedStays(s: State, a: Action, taken: set<Id>)
    requires Next(s, a).Some? && AllClosed(s, taken)
    ensures AllClosed(Next(s, a).value, taken)
  {
    forall c | c in taken
      ensures c in Next(s, a).value.conn && Next(s, a).value.conn[c].rawClosed
    {
      RawClosedKept(s, a, c);
    }
  }

  lemma RawClosedKept(s: State, a: Action, c: Id)
    requires c in s.conn && s.conn[c].rawClosed && Next(s, a).Some?
    ensures c in Next(s, a).value.conn && Next(s, a).value.conn[c].rawClosed
  {
  }

  lemma DrainingEnds(s: State, t: Id, origin: Origin, taken: set<Id>)
    requires Draining(s, t, origin, taken) && Next(s, CloserDone(t)).Some?
    ensures AllClosed(Next(s, CloserDone(t)).value, taken)
  {
  }

  /** From its critical section on, a close is still at work, or has closed everything it took over. */
  lemma {:induction false} DrainingOrClosed(ss: seq<State>, steps: seq<Action>, i: nat, k: nat, t: Id, origin: Origin)
    requires IsRun(ss, steps) && i < k < |ss| && steps[i] == ForceClose(t, origin)
    ensures Draining(ss[k], t, origin, ss[i].tracker.conns) || AllClosed(ss[k], ss[i].tracker.conns)
  {
    var taken := ss[i].tracker.conns;
    RunKeeps(ss, steps, k - 1);
    assert Runs.StepAt(Next, ss, steps, k - 1);
    if k - 1 == i {
      DrainingStarts(ss[i], t, origin);
    } else {
      DrainingOrClosed(ss, steps, i, k - 1, t, origin);
      if AllClosed(ss[k - 1], taken) {
        ClosedStays(ss[k - 1], steps[k - 1], taken);
      } else if steps[k - 1] == CloserDone(t) {
        DrainingEnds(ss[k - 1], t, origin, taken);
      } else {
        DrainingStep(ss[k - 1], steps[k - 1], t, origin, taken);
      }
    }
  }

  /** When a close returns, and ever after, every connection that was tracked at its critical section is closed. */
  lemma CloseClosesAll(ss: seq<State>, steps: seq<Action>, i: nat, k: nat, t: Id, origin: Origin)
    requires IsRun(ss, steps) && i < k < |ss| && steps[i] == ForceClose(t, origin)
    requires !(t in ss[k].threads && ss[k].threads[t].Closing? && ss[k].threads[t].origin == origin)
             || exists j | i < j < k :: steps[j] == CloserDone(t)
    ensures AllClosed(ss[k], ss[i].tracker.conns)
  {
    if j :| i < j < k && steps[j] == CloserDone(t) {
      DrainingOrClosed(ss, steps, i, j, t, origin);
      assert Runs.StepAt(Next, ss, steps, j);
      if AllClosed(ss[j], ss[i].tracker.conns) {
        ClosedStays(ss[j], steps[j], ss[i].tracker.conns);
      } else {
        DrainingEnds(ss[j], t, origin, ss[i].tracker.conns);
      }
      ClosedFrom(ss, steps, j + 1, k, ss[i].tracker.conns);
    } else {
      DrainingOrClosed(ss, steps, i, k, t, origin);
    }
  }

  lemma {:induction false} ClosedFrom(ss: seq<State>, steps: seq<Action>, i: nat, k: nat, taken: set<Id>)
    requires IsRun(ss, steps) && i <= k < |ss| && AllClosed(ss[i], taken)
    ensures AllClosed(ss[k], taken)
  {
    if i < k {
      ClosedFrom(ss, steps, i, k - 1, taken);
      assert Runs.StepAt(Next, ss, steps, k - 1);
      ClosedStays(ss[k - 1], steps[k - 1], taken);
    }
  }

  // ---------------------------------------------------------------- closing the client is final

  lemma FinalizedFrom(ss: seq<State>, steps: seq<Action>, i: nat, k: nat)
    requires IsRun(ss, steps) && i <= k < |ss| && ss[i].finalized
    ensures ss[k].finalized
  {
    Runs.Persists(Next, (s: State) => s.finalized, Init(), ss, steps, i, k);
  }

  /**
   * Once Client.Close has canceled and passed the tracker's critical section, nothing is tracked
   * again in any later state and no Track ever gets past its check, whatever else runs.
   */
  lemma ClientCloseIsFinal(ss: seq<State>, steps: seq<Action>, i: nat, k: nat, t: Id)
    requires IsRun(ss, steps) && i < k < |ss| && steps[i] == ForceClose(t, ClientClose)
    ensures ss[k].tracker.conns == {}
    ensures forall d | d in ss[k].threads :: !ss[k].threads[d].Checked?
    ensures k < |steps| ==> !steps[k].TrackInsert?
  {
    assert Runs.StepAt(Next, ss, steps, i);
    FinalizedFrom(ss, steps, i + 1, k);
    RunKeeps(ss, steps, k);
    forall d | d in ss[k].threads
      ensures !ss[k].threads[d].Checked?
    {
      assert ThreadOk(ss[k], d, ss[k].threads[d]);
    }
    if k < |steps| {
      assert Runs.StepAt(Next, ss, steps, k);
    }
  }

  // ---------------------------------------------------------------- streams and idle closing

  /** The stream counter is the number of handles not yet released, so it never goes below zero. */
  lemma StreamCountExact(ss: seq<State>, steps: seq<Action>, i: nat)
    requires IsRun(ss, steps) && i < |ss|
    ensures ss[i].streamCount == |LiveHandles(ss[i])| >= 0
  {
    RunKeeps(ss, steps, i);
  }

  /**
   * While the idle manager force-closes, from taking its lock to the last connection closed, no
   * stream is open and none can be opened or released.
   */
  lemma IdleCloseOnlyWhenIdle(ss: seq<State>, steps: seq<Action>, i: nat, t: Id)
    requires IsRun(ss, steps) && i < |ss|
    requires t in ss[i].threads && HoldsIdleLock(ss[i].threads[t])
    ensures LiveHandles(ss[i]) == {} && ss[i].idleLock == Some(t)
    ensures forall h, keepSession :: Next(ss[i], AddStream(h, keepSession)).None?
    ensures forall d, h :: Next(ss[i], Release(d, h)).None?
  {
    RunKeeps(ss, steps, i);
    assert ThreadOk(ss[i], t, ss[i].threads[t]);
  }

  predicate AtIdleLocked(s: State, t: Id) {
    t in s.threads && s.threads[t].IdleLocked?
  }

  lemma IdleLockedOutsideCloser(s: State, a: Action, t: Id)
    requires AtIdleLocked(s, t) && Next(s, a).Some? && CloserStep(s, a).None?
    ensures AtIdleLocked(Next(s, a).value, t)
  {
    if DialStep(s, a).Some? {
      IdleLockedDuringDial(s, a, t);
    }
  }

  lemma IdleLockedDuringDial(s: State, a: Action, t: Id)
    requires AtIdleLocked(s, t) && DialStep(s, a).Some?
    ensures AtIdleLocked(DialStep(s, a).value, t)
  {
  }

  /** A thread about to force-close for the idle manager can only go on by doing so. */
  lemma IdleLockedStep(s: State, a: Action, t: Id)
    requires AtIdleLocked(s, t) && Next(s, a).Some? && a != ForceClose(t, IdleClose)
    ensures AtIdleLocked(Next(s, a).value, t)
  {
    if CloserStep(s, a).Some? {
      assert MayForceClose(s, t, ClientClose) == MayForceClose(s, t, DirectClose) == false;
    } else {
      IdleLockedOutsideCloser(s, a, t);
    }
  }

  lemma {:induction false} IdleCloseHappened(ss: seq<State>, steps: seq<Action>, i: nat, k: nat, t: Id) returns (j: nat)
    requires IsRun(ss, steps) && i <= k < |ss|
    requires AtIdleLocked(ss[i], t) && !AtIdleLocked(ss[k], t)
    ensures i <= j < k && steps[j] == ForceClose(t, IdleClose)
    decreases k - i
  {
    assert Runs.StepAt(Next, ss, steps, i);
    if steps[i] == ForceClose(t, IdleClose) {
      j := i;
    } else {
      IdleLockedStep(ss[i], steps[i], t);
      j := IdleCloseHappened(ss, steps, i + 1, k, t);
    }
  }

  /** What makes the idle manager force-close: a last release that nothing keeps, or CloseIdle with no stream open. */
  predicate CausesIdleClose(s: State, a: Action, t: Id) {
    || (a == CloseIdle(t) && s.streamCount == 0)
    || (a.Release? && a.t == t && s.streamCount == 1 && !s.keep && a.h in s.handles && !s.handles[a.h].keepSession)
  }

  lemma LastHandle(s: State, h: Id)
    requires CountOk(s) && h in s.handles && !s.handles[h].released
    ensures s.streamCount >= 1
  {
    assert h in LiveHandles(s);
  }

  lemma IdleLockedOnlyByIdle(s: State, a: Action, t: Id)
    requires Next(s, a).Some? && IdleStep(s, a).None? && AtIdleLocked(Next(s, a).value, t)
    ensures AtIdleLocked(s, t)
  {
  }

  lemma IdleLockedIsNew(s: State, a: Action, t: Id)
    requires Inv(s) && Next(s, a).Some? && AtIdleLocked(Next(s, a).value, t)
    ensures AtIdleLocked(s, t) || CausesIdleClose(s, a, t)
  {
    if IdleStep(s, a).None? {
      IdleLockedOnlyByIdle(s, a, t);
    } else if a.Release? {
      LastHandle(s, a.h);
    }
  }

  lemma ForceCloseLeaves(s: State, a: Action, t: Id)
    requires Next(s, a).Some? && AtIdleLocked(Next(s, a).value, t)
    ensures a != ForceClose(t, IdleClose)
  {
  }

  lemma CauseNow(ss: seq<State>, steps: seq<Action>, k: nat, t: Id)
    requires IsRun(ss, steps) && k < |ss| && AtIdleLocked(ss[k], t)
    ensures k > 0
    ensures AtIdleLocked(ss[k - 1], t) || CausesIdleClose(ss[k - 1], steps[k - 1], t)
    ensures steps[k - 1] != ForceClose(t, IdleClose)
  {
    assert k > 0;
    RunKeeps(ss, steps, k - 1);
    assert Runs.StepAt(Next, ss, steps, k - 1);
    ForceCloseLeaves(ss[k - 1], steps[k - 1], t);
    IdleLockedIsNew(ss[k - 1], steps[k - 1], t);
  }

  lemma {:induction false} CauseOf(ss: seq<State>, steps: seq<Action>, k: nat, t: Id) returns (i: nat)
    requires IsRun(ss, steps) && k < |ss| && AtIdleLocked(ss[k], t)
    ensures i < k && CausesIdleClose(ss[i], steps[i], t)
    ensures forall m | i < m < k :: steps[m] != ForceClose(t, IdleClose)
    decreases k
  {
    CauseNow(ss, steps, k, t);
    if CausesIdleClose(ss[k - 1], steps[k - 1], t) {
      i := k - 1;
    } else {
      i := CauseOf(ss, steps, k - 1, t);
    }
  }

  /** The idle manager never force-closes without a cause of its own each time: kept connections stay. */
  lemma CauseOfClose(ss: seq<State>, steps: seq<Action>, j: nat, t: Id) returns (i: nat)
    requires IsRun(ss, steps) && j < |steps| && steps[j] == ForceClose(t, IdleClose)
    ensures i < j && CausesIdleClose(ss[i], steps[i], t)
    ensures forall m | i < m < j :: steps[m] != ForceClose(t, IdleClose)
  {
    assert Runs.StepAt(Next, ss, steps, j);
    i := CauseOf(ss, steps, j, t);
  }

  // ---------------------------------------------------------------- the keep flag

  /** Some SetKeep(true) before state i, and no SetKeep(false) since. */
  ghost predicate KeptSince(steps: seq<Action>, j: nat, i: nat)
    requires i <= |steps|
  {
    j < i && steps[j] == SetKeep(true) && forall k | j < k < i :: steps[k] != SetKeep(false)
  }

  lemma KeepAfter(s: State, a: Action)
    requires Next(s, a).Some?
    ensures Next(s, a).value.keep == if a.SetKeep? then a.value else s.keep
  {
  }

  /** The keep flag is what the last SetKeep said, and unset before the first. */
  lemma {:induction false} KeepMeans(ss: seq<State>, steps: seq<Action>, i: nat)
    requires IsRun(ss, steps) && i < |ss|
    ensures ss[i].keep <==> exists j :: KeptSince(steps, j, i)
  {
    if i > 0 {
      KeepMeans(ss, steps, i - 1);
      assert Runs.StepAt(Next, ss, steps, i - 1);
      KeepAfter(ss[i - 1], steps[i - 1]);
      if steps[i - 1] == SetKeep(true) {
        assert KeptSince(steps, i - 1, i);
      } else if ss[i].keep {
        var j :| KeptSince(steps, j, i - 1);
        assert KeptSince(steps, j, i);
      } else if j :| KeptSince(steps, j, i) {
        assert KeptSince(steps, j, i - 1);
      }
    }
  }

  // ---------------------------------------------------------------- closing a connection twice

  lemma FlagKept(s: State, a: Action, c: Id)
    requires c in s.conn && s.conn[c].flag && Next(s, a).Some?
    ensures c in Next(s, a).value.conn && Next(s, a).value.conn[c].flag
  {
  }

  lemma {:induction false} FlaggedFrom(ss: seq<State>, steps: seq<Action>, i: nat, k: nat, c: Id)
    requires IsRun(ss, steps) && i <= k < |ss| && c in ss[i].conn && ss[i].conn[c].flag
    ensures c in ss[k].conn && ss[k].conn[c].flag
  {
    if i < k {
      FlaggedFrom(ss, steps, i, k - 1, c);
      assert Runs.StepAt(Next, ss, steps, k - 1);
      FlagKept(ss[k - 1], steps[k - 1], c);
    }
  }

  /** After a connection's own Close, or one by the tracker, its Close does nothing any more. */
  lemma LaterCloseDoesNothing(ss: seq<State>, steps: seq<Action>, i: nat, j: nat, t: Id, t': Id, c: Id)
    requires IsRun(ss, steps) && i < j < |steps|
    requires steps[i] == SelfCloseBegin(t, c) || steps[i] == CloserStore(t, c)
    requires steps[j] == SelfCloseBegin(t', c)
    ensures ss[j + 1] == ss[j]
  {
    RunKeeps(ss, steps, i);
    assert Runs.StepAt(Next, ss, steps, i);
    assert steps[i].CloserStore? ==> ThreadOk(ss[i], t, ss[i].threads[t]);
    FlaggedFrom(ss, steps, i + 1, j, c);
    assert Runs.StepAt(Next, ss, steps, j);
  }

  // ---------------------------------------------------------------- no deadlock

  /** A step of the thread that holds the tracker's lock, or else of the one that holds the idle lock. */
  predicate HolderStep(s: State, a: Action) {
    if s.lock.Some? then a == TrackInsert(s.lock.value)
    else if s.idleLock.Some? then
      var t := s.idleLock.value;
      a == ForceClose(t, IdleClose) || a == CloserRaw(t) || a == CloserDone(t) || (a.CloserStore? && a.t == t)
    else false
  }

  lemma HolderCanStep(s: State) returns (a: Action)
    requires Inv(s) && (s.lock.Some? || s.idleLock.Some?)
    ensures HolderStep(s, a) && Next(s, a).Some?
  {
    if s.lock.Some? {
      a := TrackInsert(s.lock.value);
      assert ThreadOk(s, s.lock.value, s.threads[s.lock.value]);
    } else {
      var t := s.idleLock.value;
      if s.threads[t].IdleLocked? {
        a := ForceClose(t, IdleClose);
      } else if s.threads[t].current.Some? {
        a := CloserRaw(t);
      } else if s.threads[t].todo == {} {
        a := CloserDone(t);
      } else {
        var c :| c in s.threads[t].todo;
        a := CloserStore(t, c);
      }
    }
  }

  /** Whoever holds a lock can take its next step, so that no lock is waited for in vain. */
  lemma LocksAreReleased(ss: seq<State>, steps: seq<Action>, i: nat) returns (a: Action)
    requires IsRun(ss, steps) && i < |ss| && (ss[i].lock.Some? || ss[i].idleLock.Some?)
    ensures HolderStep(ss[i], a) && Next(ss[i], a).Some?
  {
    RunKeeps(ss, steps, i);
    a := HolderCanStep(ss[i]);
  }
}
