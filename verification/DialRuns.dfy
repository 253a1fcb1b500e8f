/**
 * Dials over every run of the lifecycle, from the step that begins one to the fate of its connection:
 * which closes it survives, and which it does not.
 */
module DialRuns {
  import opened Lifecycle
  import opened LifecycleRuns
  import LifecycleEvents
  import Runs

  // ---------------------------------------------------------------- dials as events

  predicate EndsDial(a: Action, d: Id) {
    (a.DialFails? || a.DialYields?) && a.t == d
  }

  /** The dial that thread d begins at step b has not ended by state k. */
  ghost predicate UnderWay(steps: seq<Action>, b: nat, k: nat, d: Id) {
    && b < k <= |steps| && steps[b] == BeginDial(d)
    && forall j | b < j < k :: !EndsDial(steps[j], d)
  }

  /** The dial that thread d begins at step b yields connection c at step m. */
  ghost predicate Dials(steps: seq<Action>, b: nat, m: nat, d: Id, c: Id) {
    UnderWay(steps, b, m, d) && m < |steps| && steps[m] == DialYields(d, c)
  }

  /** No connTracker.Close passes its critical section from step b up to state k. */
  ghost predicate NoClose(steps: seq<Action>, b: nat, k: nat)
    requires k <= |steps|
  {
    forall j | b <= j < k :: !steps[j].ForceClose?
  }

  predicate IsDialing(s: State, d: Id) {
    d in s.threads && s.threads[d].Dialing?
  }

  lemma DialingStays(s: State, a: Action, d: Id)
    requires IsDialing(s, d) && Next(s, a).Some? && !EndsDial(a, d)
    ensures IsDialing(Next(s, a).value, d) && Next(s, a).value.threads[d] == s.threads[d]
  {
  }

  lemma DialingIsNew(s: State, a: Action, d: Id)
    requires Next(s, a).Some? && IsDialing(Next(s, a).value, d)
    ensures !EndsDial(a, d)
    ensures IsDialing(s, d) || a == BeginDial(d)
  {
  }

  lemma ConnIsNew(s: State, a: Action, c: Id)
    requires Next(s, a).Some? && c in Next(s, a).value.conn && c !in s.conn
    ensures a.DialYields? && a.c == c && IsDialing(s, a.t)
  {
  }

  lemma GenKept(s: State, a: Action, c: Id)
    requires c in s.conn && Next(s, a).Some?
    ensures c in Next(s, a).value.conn && Next(s, a).value.conn[c].gen == s.conn[c].gen
  {
  }

  lemma GenCounts(s: State, a: Action)
    requires Next(s, a).Some?
    ensures Next(s, a).value.tracker.gen == s.tracker.gen + if a.ForceClose? then 1 else 0
  {
  }

  /** A dial under way holds the context that was the tracker's when it began. */
  lemma {:induction false} CapturedAtBegin(ss: seq<State>, steps: seq<Action>, b: nat, k: nat, d: Id)
    requires IsRun(ss, steps) && UnderWay(steps, b, k, d)
    ensures d in ss[k].threads && ss[k].threads[d] == Dialing(ss[b].tracker.gen)
  {
    assert Runs.StepAt(Next, ss, steps, k - 1);
    if b < k - 1 {
      CapturedAtBegin(ss, steps, b, k - 1, d);
      DialingStays(ss[k - 1], steps[k - 1], d);
    }
  }

  /** And its connection carries that context for good. */
  lemma {:induction false} CarriesCaptured(ss: seq<State>, steps: seq<Action>, b: nat, m: nat, d: Id, c: Id, k: nat)
    requires IsRun(ss, steps) && Dials(steps, b, m, d, c) && m < k < |ss|
    ensures c in ss[k].conn && ss[k].conn[c].gen == ss[b].tracker.gen
  {
    assert Runs.StepAt(Next, ss, steps, k - 1);
    if m < k - 1 {
      CarriesCaptured(ss, steps, b, m, d, c, k - 1);
      GenKept(ss[k - 1], steps[k - 1], c);
    } else {
      CapturedAtBegin(ss, steps, b, m, d);
    }
  }

  /** Every thread seen dialing once began to. */
  lemma {:induction false} BeginOf(ss: seq<State>, steps: seq<Action>, k: nat, d: Id) returns (b: nat)
    requires IsRun(ss, steps) && k < |ss| && IsDialing(ss[k], d)
    ensures UnderWay(steps, b, k, d)
    decreases k
  {
    assert k > 0;
    assert Runs.StepAt(Next, ss, steps, k - 1);
    DialingIsNew(ss[k - 1], steps[k - 1], d);
    if steps[k - 1] == BeginDial(d) {
      b := k - 1;
    } else {
      b := BeginOf(ss, steps, k - 1, d);
    }
  }

  /** Every connection was once dialed. */
  lemma {:induction false} DialOf(ss: seq<State>, steps: seq<Action>, k: nat, c: Id) returns (b: nat, m: nat, d: Id)
    requires IsRun(ss, steps) && k < |ss| && c in ss[k].conn
    ensures m < k && Dials(steps, b, m, d, c)
    decreases k
  {
    assert k > 0;
    assert Runs.StepAt(Next, ss, steps, k - 1);
    if c in ss[k - 1].conn {
      b, m, d := DialOf(ss, steps, k - 1, c);
    } else {
      ConnIsNew(ss[k - 1], steps[k - 1], c);
      m, d := k - 1, steps[k - 1].t;
      b := BeginOf(ss, steps, m, d);
    }
  }

  /** The current context is the one of an earlier state exactly if no close came between. */
  lemma {:induction false} SameContext(ss: seq<State>, steps: seq<Action>, i: nat, k: nat)
    requires IsRun(ss, steps) && i <= k < |ss|
    ensures ss[i].tracker.gen <= ss[k].tracker.gen
    ensures ss[i].tracker.gen == ss[k].tracker.gen <==> NoClose(steps, i, k)
  {
    if i < k {
      SameContext(ss, steps, i, k - 1);
      assert Runs.StepAt(Next, ss, steps, k - 1);
      GenCounts(ss[k - 1], steps[k - 1]);
    }
  }

  // ---------------------------------------------------------------- generation safety

  /** A dial begun before a close never has its connection tracked after it, whenever it yields it. */
  lemma CloseExcludesEarlierDials(ss: seq<State>, steps: seq<Action>, b: nat, m: nat, d: Id, c: Id,
                                  i: nat, t: Id, origin: Origin, k: nat)
    requires IsRun(ss, steps) && Dials(steps, b, m, d, c)
    requires b < i < k < |ss| && m < k && steps[i] == ForceClose(t, origin)
    ensures c !in ss[k].tracker.conns
  {
    CarriesCaptured(ss, steps, b, m, d, c, k);
    SameContext(ss, steps, b, k);
    RunKeeps(ss, steps, k);
    assert ConnOk(ss[k], c);
  }

  /** Every tracked connection comes from a dial since whose beginning there was no close. */
  lemma TrackedIsCurrent(ss: seq<State>, steps: seq<Action>, k: nat, c: Id) returns (b: nat, m: nat, d: Id)
    requires IsRun(ss, steps) && k < |ss| && c in ss[k].tracker.conns
    ensures m < k && Dials(steps, b, m, d, c) && NoClose(steps, b, k)
  {
    RunKeeps(ss, steps, k);
    assert ConnOk(ss[k], c);
    b, m, d := DialOf(ss, steps, k, c);
    CarriesCaptured(ss, steps, b, m, d, c, k);
    SameContext(ss, steps, b, k);
  }

  /**
   * A close does not poison later dials: while the client lives, Track accepts a connection exactly
   * if no close came since its dial began, and closes it otherwise.
   */
  lemma LaterDialsPass(ss: seq<State>, steps: seq<Action>, b: nat, m: nat, d: Id, c: Id, k: nat)
    requires IsRun(ss, steps) && Dials(steps, b, m, d, c) && m < k < |ss|
    requires !ss[k].tracker.parentErr && ss[k].lock.None?
    requires d in ss[k].threads && ss[k].threads[d].Tracking? && ss[k].threads[d].c == c
    ensures Next(ss[k], TrackCheck(d)).Some?
    ensures var th := Next(ss[k], TrackCheck(d)).value.threads[d];
            if NoClose(steps, b, k) then th == Checked(ss[b].tracker.gen, c) else th == Rejected(c)
  {
    CarriesCaptured(ss, steps, b, m, d, c, k);
    SameContext(ss, steps, b, k);
    RunKeeps(ss, steps, k);
    assert ThreadOk(ss[k], d, ss[k].threads[d]);
  }

  /** A close cancels the context of every dial under way, and short of the client's own cancel nothing else does. */
  lemma CloseCancelsDialsUnderWay(ss: seq<State>, steps: seq<Action>, b: nat, k: nat, d: Id)
    requires IsRun(ss, steps) && UnderWay(steps, b, k, d)
    ensures IsDialing(ss[k], d)
    ensures !NoClose(steps, b, k) ==> ss[k].threads[d].gen in ss[k].tracker.canceled
    ensures !ss[k].tracker.parentErr && NoClose(steps, b, k) ==> ss[k].threads[d].gen !in ss[k].tracker.canceled
  {
    CapturedAtBegin(ss, steps, b, k, d);
    SameContext(ss, steps, b, k);
    RunKeeps(ss, steps, k);
  }

  // ---------------------------------------------------------------- idle closing

  /** Connection c comes from a dial that began after step j and before state k. */
  ghost predicate DialedAfter(steps: seq<Action>, j: nat, k: nat, c: Id) {
    exists b: nat, m: nat, d: Id :: j < b && m < k && Dials(steps, b, m, d, c)
  }

  /**
   * After a release that drops the count to zero with neither keep flag set, once the releasing
   * thread has gone on, it has force-closed, and every tracked connection comes from a dial begun
   * after that.
   */
  lemma LastReleaseDropsConnections(ss: seq<State>, steps: seq<Action>, i: nat, k: nat, t: Id, h: Id) returns (j: nat)
    requires IsRun(ss, steps) && i + 1 < k < |ss| && LifecycleEvents.IsLastRelease(ss, steps, i, t, h)
    requires !AtIdleLocked(ss[k], t)
    ensures i < j < k && steps[j] == ForceClose(t, IdleClose)
    ensures forall c | c in ss[k].tracker.conns :: DialedAfter(steps, j, k, c)
  {
    LifecycleEvents.LastReleaseMeans(ss, steps, i, t, h);
    assert Runs.StepAt(Next, ss, steps, i);
    j := IdleCloseDropsConnections(ss, steps, i + 1, k, t);
  }

  /** The same after a CloseIdle with no stream open, whatever the keep flag. */
  lemma CloseIdleDropsConnections(ss: seq<State>, steps: seq<Action>, i: nat, k: nat, t: Id) returns (j: nat)
    requires IsRun(ss, steps) && i + 1 < k < |ss| && steps[i] == CloseIdle(t)
    requires ss[i].streamCount == 0 && !AtIdleLocked(ss[k], t)
    ensures i < j < k && steps[j] == ForceClose(t, IdleClose)
    ensures forall c | c in ss[k].tracker.conns :: DialedAfter(steps, j, k, c)
  {
    assert Runs.StepAt(Next, ss, steps, i);
    j := IdleCloseDropsConnections(ss, steps, i + 1, k, t);
  }

  lemma IdleCloseDropsConnections(ss: seq<State>, steps: seq<Action>, i: nat, k: nat, t: Id) returns (j: nat)
    requires IsRun(ss, steps) && i < k < |ss| && AtIdleLocked(ss[i], t) && !AtIdleLocked(ss[k], t)
    ensures i <= j < k && steps[j] == ForceClose(t, IdleClose)
    ensures forall c | c in ss[k].tracker.conns :: DialedAfter(steps, j, k, c)
  {
    j := IdleCloseHappened(ss, steps, i, k, t);
    forall c | c in ss[k].tracker.conns
      ensures DialedAfter(steps, j, k, c)
    {
      var b, m, d := TrackedIsCurrent(ss, steps, k, c);
    }
  }
}
