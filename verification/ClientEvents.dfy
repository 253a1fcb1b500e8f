/**
 * The runs inside a client's run: that of its connections, and that of each of its streams. What was
 * proved of those holds here, and a last release is followed from the stream to the connections.
 */
module ClientEvents {
  import opened Basics
  import opened ClientRuns
  import DialRuns
  import Lifecycle
  import LifecycleEvents
  import LifecycleProof
  import LifecycleRuns
  import Runs
  import Streams

  // ---------------------------------------------------------------- the connections' run

  function LifeOf(s: State): Lifecycle.State {
    s.life
  }

  function LifeStep(a: Action): Option<Lifecycle.Action> {
    match a
    case OpenStream(h, keepSession) => Some(Lifecycle.AddStream(h, keepSession))
    case InStream(_, _) => None
    case StreamReleases(h, t) => Some(Lifecycle.Release(t, h))
    case Elsewhere(other) => Some(other)
  }

  type LifePart = Runs.Part<Lifecycle.State, Lifecycle.Action>

  ghost predicate IsLife(ss: seq<State>, steps: seq<Action>, p: LifePart) {
    Runs.IsPartOf(LifeOf, LifeStep, ss, steps, p) && LifecycleRuns.IsRun(p.states, p.steps)
  }

  lemma LifeFollows(s: State, a: Action)
    requires Next(s, a).Some?
    ensures Runs.Follows(Next, Lifecycle.Next, LifeOf, LifeStep, s, a)
  {
  }

  /** Leaving out what happens inside the streams, a client's run is a run of the connection lifecycle. */
  lemma LifeRun(ss: seq<State>, steps: seq<Action>) returns (p: LifePart)
    requires IsRun(ss, steps)
    ensures IsLife(ss, steps, p)
  {
    forall s, a | Inv(s) && Next(s, a).Some?
      ensures Inv(Next(s, a).value)
      ensures Runs.Follows(Next, Lifecycle.Next, LifeOf, LifeStep, s, a)
    {
      StepKeeps(s, a);
      LifeFollows(s, a);
    }
    LifecycleProof.InitOk();
    p := Runs.PartOf(Next, s => Inv(s), Lifecycle.Next, LifeOf, LifeStep, Init(), ss, steps);
  }

  // ---------------------------------------------------------------- one stream's run

  /** Stream h, or the stream it will be when it opens. */
  function StreamOf(h: Id): State -> Streams.Stream {
    (s: State) => if h in s.streams then s.streams[h] else Streams.NewStream()
  }

  function StreamStep(h: Id): Action -> Option<Streams.Action> {
    (a: Action) =>
      match a
      case InStream(h', step) => if h' == h then Some(step) else None
      case StreamReleases(h', _) => if h' == h then Some(Streams.FinishReleases) else None
      case _ => None
  }

  type StreamPart = Runs.Part<Streams.Stream, Streams.Action>

  ghost predicate IsStream(ss: seq<State>, steps: seq<Action>, h: Id, p: StreamPart) {
    Runs.IsPartOf(StreamOf(h), StreamStep(h), ss, steps, p) && Streams.IsRun(p.states, p.steps)
  }

  lemma StreamFollows(s: State, a: Action, h: Id)
    requires Inv(s) && Next(s, a).Some?
    ensures Runs.Follows(Next, Streams.Next, StreamOf(h), StreamStep(h), s, a)
  {
    assert h in s.streams ==> StreamOk(s, h);
  }

  /** Leaving out everything else, a client's run is a run of any one of its streams. */
  lemma StreamRun(ss: seq<State>, steps: seq<Action>, h: Id) returns (p: StreamPart)
    requires IsRun(ss, steps)
    ensures IsStream(ss, steps, h, p)
  {
    forall s, a | Inv(s) && Next(s, a).Some?
      ensures Inv(Next(s, a).value)
      ensures Runs.Follows(Next, Streams.Next, StreamOf(h), StreamStep(h), s, a)
    {
      StepKeeps(s, a);
      StreamFollows(s, a, h);
    }
    LifecycleProof.InitOk();
    p := Runs.PartOf(Next, s => Inv(s), Streams.Next, StreamOf(h), StreamStep(h), Init(), ss, steps);
  }

  // ---------------------------------------------------------------- what carries over

  lemma HappenedInStream(ss: seq<State>, steps: seq<Action>, h: Id, p: StreamPart, i: nat, step: Streams.Action)
    requires IsStream(ss, steps, h, p) && i < |ss| && p.at[i] <= |p.steps| && !step.FinishReleases?
    requires Runs.Happened(p.steps, p.at[i], step)
    ensures Runs.Happened(steps, i, InStream(h, step))
  {
    var j' :| 0 <= j' < p.at[i] && p.steps[j'] == step;
    assert Runs.ComesFrom(StreamStep(h), steps, p, j');
    var j := p.from[j'];
    if i <= j {
      Runs.SameOrder(StreamOf(h), StreamStep(h), ss, steps, p, i, j);
    }
    assert steps[j] == InStream(h, step);
  }

  /** Whatever else the client does, a stream opens only if a connection was got for it or its round trip succeeded. */
  lemma OpenMeansEstablished(ss: seq<State>, steps: seq<Action>, i: nat, h: Id)
    requires IsRun(ss, steps) && i < |ss| && h in ss[i].streams && ss[i].streams[h].caller == Streams.Returned(true)
    ensures || Runs.Happened(steps, i, InStream(h, Streams.GotConn))
            || Runs.Happened(steps, i, InStream(h, Streams.RoundTripEnds(true)))
  {
    var p := StreamRun(ss, steps, h);
    assert Runs.StandsAt(StreamOf(h), ss, p, i);
    Streams.SuccessMeansEstablished(p.states, p.steps, p.at[i]);
    if Runs.Happened(p.steps, p.at[i], Streams.GotConn) {
      HappenedInStream(ss, steps, h, p, i, Streams.GotConn);
    } else {
      HappenedInStream(ss, steps, h, p, i, Streams.RoundTripEnds(true));
    }
  }

  // ---------------------------------------------------------------- a last release

  /** Stream h has released in thread t. */
  predicate ReleasedBy(s: State, h: Id, t: Id) {
    h in s.streams && s.streams[h].releases == 1 && h in s.releasers && s.releasers[h] == t
  }

  lemma ReleaserKept(s: State, a: Action, h: Id, t: Id)
    requires Inv(s) && Next(s, a).Some? && ReleasedBy(s, h, t)
    ensures ReleasedBy(Next(s, a).value, h, t)
  {
    assert StreamOk(s, h);
    if a.InStream? && a.h == h {
      OnlyReleaseReleases(s.streams[h], a.step);
    } else if a.StreamReleases? && a.h == h {
      ReleasedIsNotReleasing(s.streams[h]);
    } else if a.OpenStream? {
      HandleIsTaken(s.life, a.h, a.keepSession);
    }
  }

  lemma ReleasedIsNotReleasing(s: Streams.Stream)
    requires Streams.Inv(s) && s.releases == 1
    ensures Streams.Next(s, Streams.FinishReleases).None?
  {
  }

  lemma HandleIsTaken(s: Lifecycle.State, h: Id, keepSession: bool)
    requires Lifecycle.Next(s, Lifecycle.AddStream(h, keepSession)).Some?
    ensures h !in s.handles
  {
  }

  lemma {:induction false} ReleaserFrom(ss: seq<State>, steps: seq<Action>, i: nat, k: nat, h: Id, t: Id)
    requires IsRun(ss, steps) && i <= k < |ss| && ReleasedBy(ss[i], h, t)
    ensures ReleasedBy(ss[k], h, t)
  {
    if i < k {
      ReleaserFrom(ss, steps, i, k - 1, h, t);
      RunKeeps(ss, steps, k - 1);
      assert Runs.StepAt(Next, ss, steps, k - 1);
      ReleaserKept(ss[k - 1], steps[k - 1], h, t);
    }
  }

  lemma ReleaseTaken(ss: seq<State>, steps: seq<Action>, i: nat, h: Id, t: Id)
    requires IsRun(ss, steps) && i < |steps| && steps[i] == StreamReleases(h, t)
    ensures ReleasedBy(ss[i + 1], h, t)
  {
    RunKeeps(ss, steps, i);
    assert Runs.StepAt(Next, ss, steps, i);
    assert StreamOk(ss[i], h);
  }

  /** Some SetKeep(true) before state i, and no SetKeep(false) since. */
  ghost predicate KeptSince(steps: seq<Action>, j: nat, i: nat)
    requires i <= |steps|
  {
    && j < i && steps[j] == Elsewhere(Lifecycle.SetKeep(true))
    && forall k | j < k < i :: steps[k] != Elsewhere(Lifecycle.SetKeep(false))
  }

  /** The release of the last stream, opened not to keep the session, with no SetKeep(true) in force. */
  ghost predicate IsLastRelease(ss: seq<State>, steps: seq<Action>, i: nat, t: Id, h: Id)
    requires i < |steps| < |ss|
  {
    && steps[i] == StreamReleases(h, t) && ss[i].life.streamCount == 1
    && Runs.Happened(steps, i, OpenStream(h, false))
    && !exists j :: KeptSince(steps, j, i)
  }

  lemma KeepAfter(s: State, a: Action)
    requires Next(s, a).Some?
    ensures Next(s, a).value.life.keep ==
            if a.Elsewhere? && a.other.SetKeep? then a.other.value else s.life.keep
  {
    match a
    case OpenStream(h, keepSession) => LifecycleRuns.KeepAfter(s.life, Lifecycle.AddStream(h, keepSession));
    case InStream(_, _) =>
    case StreamReleases(h, t) => LifecycleRuns.KeepAfter(s.life, Lifecycle.Release(t, h));
    case Elsewhere(other) => LifecycleRuns.KeepAfter(s.life, other);
  }

  lemma {:induction false} KeepMeans(ss: seq<State>, steps: seq<Action>, i: nat)
    requires IsRun(ss, steps) && i < |ss| && ss[i].life.keep
    ensures exists j :: KeptSince(steps, j, i)
  {
    if i > 0 {
      assert Runs.StepAt(Next, ss, steps, i - 1);
      KeepAfter(ss[i - 1], steps[i - 1]);
      if steps[i - 1] == Elsewhere(Lifecycle.SetKeep(true)) {
        assert KeptSince(steps, i - 1, i);
      } else {
        KeepMeans(ss, steps, i - 1);
        var j :| KeptSince(steps, j, i - 1);
        assert KeptSince(steps, j, i);
      }
    }
  }

  lemma SessionKept(s: State, a: Action, h: Id)
    requires Next(s, a).Some?
    ensures a == OpenStream(h, false) || (h in s.life.handles && !s.life.handles[h].keepSession) ==>
              h in Next(s, a).value.life.handles && !Next(s, a).value.life.handles[h].keepSession
  {
    match a
    case OpenStream(h', keepSession) =>
      LifecycleEvents.HandleStep(s.life, Lifecycle.AddStream(h', keepSession), h);
    case InStream(_, _) =>
    case StreamReleases(h', t) => LifecycleEvents.HandleStep(s.life, Lifecycle.Release(t, h'), h);
    case Elsewhere(other) => LifecycleEvents.HandleStep(s.life, other, h);
  }

  lemma {:induction false} SessionMeans(ss: seq<State>, steps: seq<Action>, i: nat, h: Id)
    requires IsRun(ss, steps) && i < |ss| && Runs.Happened(steps, i, OpenStream(h, false))
    ensures h in ss[i].life.handles && !ss[i].life.handles[h].keepSession
  {
    if i > 0 {
      assert Runs.StepAt(Next, ss, steps, i - 1);
      SessionKept(ss[i - 1], steps[i - 1], h);
      Runs.HappenedNext(steps, i - 1, OpenStream(h, false));
      if Runs.Happened(steps, i - 1, OpenStream(h, false)) {
        SessionMeans(ss, steps, i - 1, h);
      }
    }
  }

  lemma LastReleaseKeepsNothing(ss: seq<State>, steps: seq<Action>, i: nat, t: Id, h: Id)
    requires IsRun(ss, steps) && i < |steps| && IsLastRelease(ss, steps, i, t, h)
    ensures KeepsNothing(ss[i], h)
  {
    SessionMeans(ss, steps, i, h);
    if ss[i].life.keep {
      KeepMeans(ss, steps, i);
    }
  }

  predicate KeepsNothing(s: State, h: Id) {
    && s.life.streamCount == 1 && !s.life.keep
    && h in s.life.handles && !s.life.handles[h].keepSession
  }

  lemma LastReleaseLocks(s: State, h: Id, t: Id)
    requires Next(s, StreamReleases(h, t)).Some? && KeepsNothing(s, h)
    ensures LifecycleRuns.AtIdleLocked(Next(s, StreamReleases(h, t)).value.life, t)
  {
  }

  /** finish returns only when the thread of its release is past the force-close. */
  lemma ReturnsOutside(ss: seq<State>, steps: seq<Action>, i: nat, r: nat, h: Id, t: Id)
    requires IsRun(ss, steps) && i < r < |steps|
    requires steps[i] == StreamReleases(h, t) && steps[r] == InStream(h, Streams.FinishReturns)
    ensures !InIdleClose(ss[r].life, t)
  {
    ReleaseTaken(ss, steps, i, h, t);
    ReleaserFrom(ss, steps, i + 1, r, h, t);
    assert Runs.StepAt(Next, ss, steps, r);
  }

  /** The same, for a run of the connections: a thread that was about to force-close and is past it has done so. */
  lemma PastMeansClosed(ss: seq<Lifecycle.State>, steps: seq<Lifecycle.Action>, i: nat, k: nat, t: Id) returns (j: nat)
    requires LifecycleRuns.IsRun(ss, steps) && i <= k < |ss|
    requires LifecycleRuns.AtIdleLocked(ss[i], t) && !InIdleClose(ss[k], t)
    ensures i <= j < k && steps[j] == Lifecycle.ForceClose(t, Lifecycle.IdleClose)
    ensures LifecycleRuns.AllClosed(ss[k], ss[j].tracker.conns)
    ensures forall c | c in ss[k].tracker.conns :: DialRuns.DialedAfter(steps, j, k, c)
  {
    j := DialRuns.IdleCloseDropsConnections(ss, steps, i, k, t);
    LifecycleRuns.CloseClosesAll(ss, steps, j, k, t, Lifecycle.IdleClose);
  }

  /**
   * After the release of the last stream, with neither keep flag set, its finish returns only when
   * every connection has been taken out of the tracker by a force-close and closed.
   */
  lemma FinishedMeansClosed(ss: seq<State>, steps: seq<Action>, i: nat, r: nat, h: Id, t: Id) returns (j: nat)
    requires IsRun(ss, steps) && i < r < |steps|
    requires IsLastRelease(ss, steps, i, t, h) && steps[r] == InStream(h, Streams.FinishReturns)
    ensures i < j < r && steps[j] == Elsewhere(Lifecycle.ForceClose(t, Lifecycle.IdleClose))
    ensures LifecycleRuns.AllClosed(ss[r].life, ss[j].life.tracker.conns)
  {
    ReturnsOutside(ss, steps, i, r, h, t);
    LastReleaseKeepsNothing(ss, steps, i, t, h);
    assert Runs.StepAt(Next, ss, steps, i);
    LastReleaseLocks(ss[i], h, t);
    var p := LifeRun(ss, steps);
    assert Runs.StandsAt(LifeOf, ss, p, i + 1) && Runs.StandsAt(LifeOf, ss, p, r);
    Runs.SameOrder(LifeOf, LifeStep, ss, steps, p, i + 1, r);
    var j' := PastMeansClosed(p.states, p.steps, p.at[i + 1], p.at[r], t);
    assert Runs.ComesFrom(LifeStep, steps, p, j');
    j := p.from[j'];
    assert Runs.StandsAt(LifeOf, ss, p, j) && Runs.ShowsAt(LifeStep, steps, p, j);
    if j <= i {
      Runs.SameOrder(LifeOf, LifeStep, ss, steps, p, j + 1, i + 1);
    } else if r <= j {
      Runs.SameOrder(LifeOf, LifeStep, ss, steps, p, r, j);
    }
  }
}
