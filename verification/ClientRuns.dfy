/**
 * The whole client: the streams of Streams, each holding one handle of the idle manager of
 * Lifecycle, interleaved step by step with each other and with every connection step.
 */
module ClientRuns {
  import opened Basics
  import Lifecycle
  import LifecycleProof
  import LifecycleRuns
  import Streams
  import Runs

  type Id = nat

  /** A stream is named by its handle; releasers records which thread ran its release. */
  datatype State = State(life: Lifecycle.State, streams: map<Id, Streams.Stream>, releasers: map<Id, Id>)

  function Init(): State {
    State(Lifecycle.Init(), map[], map[])
  }

  datatype Action =
    | OpenStream(h: Id, keepSession: bool)
    | InStream(h: Id, step: Streams.Action)
    | StreamReleases(h: Id, t: Id)
    | Elsewhere(other: Lifecycle.Action)

  /** Thread t is still inside the force-close its release set off. */
  predicate InIdleClose(life: Lifecycle.State, t: Id) {
    t in life.threads && Lifecycle.HoldsIdleLock(life.threads[t])
  }

  /** Any step but the release; and finish only returns once release has. */
  predicate MayStep(s: State, h: Id, a: Streams.Action) {
    && h in s.streams && !a.FinishReleases?
    && (a.FinishReturns? ==> h in s.releasers && !InIdleClose(s.life, s.releasers[h]))
  }

  /** Handles outside the streams belong to health checks, which release them on their own. */
  predicate NotAStreams(s: State, a: Lifecycle.Action) {
    a.Release? ==> a.h !in s.streams
  }

  function Next(s: State, a: Action): Option<State> {
    match a
    case OpenStream(h, keepSession) =>
      var life := Lifecycle.Next(s.life, Lifecycle.AddStream(h, keepSession));
      if life.Some? then Some(s.(life := life.value, streams := s.streams[h := Streams.NewStream()])) else None
    case InStream(h, step) =>
      if MayStep(s, h, step) && Streams.Next(s.streams[h], step).Some? then
        Some(s.(streams := s.streams[h := Streams.Next(s.streams[h], step).value]))
      else None
    case StreamReleases(h, t) =>
      if h in s.streams && Streams.Next(s.streams[h], Streams.FinishReleases).Some?
         && Lifecycle.Next(s.life, Lifecycle.Release(t, h)).Some? then
        Some(State(Lifecycle.Next(s.life, Lifecycle.Release(t, h)).value,
                   s.streams[h := Streams.Next(s.streams[h], Streams.FinishReleases).value],
                   s.releasers[h := t]))
      else None
    case Elsewhere(other) =>
      if NotAStreams(s, other) && Lifecycle.Next(s.life, other).Some? then
        Some(s.(life := Lifecycle.Next(s.life, other).value))
      else None
  }

  // ---------------------------------------------------------------- what every state satisfies

  /** A stream's handle is released exactly if the stream has released it. */
  predicate Linked(s: State, h: Id) {
    && h in s.streams && h in s.life.handles
    && (s.life.handles[h].released <==> s.streams[h].releases == 1)
    && (s.streams[h].releases == 1 ==> h in s.releasers)
  }

  ghost predicate StreamOk(s: State, h: Id) {
    Linked(s, h) && Streams.Inv(s.streams[h])
  }

  ghost predicate Inv(s: State) {
    && Lifecycle.Inv(s.life)
    && forall h | h in s.streams :: StreamOk(s, h)
  }

  /** Only AddStream and Release touch the handles, each a single one. */
  lemma HandlesUntouched(s: Lifecycle.State, a: Lifecycle.Action, h: Id)
    requires Lifecycle.Next(s, a).Some? && h in s.handles && !(a.Release? && a.h == h)
    ensures h in Lifecycle.Next(s, a).value.handles && Lifecycle.Next(s, a).value.handles[h] == s.handles[h]
  {
  }

  lemma ReleaseMarks(s: Lifecycle.State, t: Id, h: Id)
    requires Lifecycle.Next(s, Lifecycle.Release(t, h)).Some?
    ensures var s' := Lifecycle.Next(s, Lifecycle.Release(t, h)).value;
            h in s.handles && !s.handles[h].released && h in s'.handles && s'.handles[h].released
  {
  }

  lemma OnlyReleaseReleases(s: Streams.Stream, a: Streams.Action)
    requires Streams.Next(s, a).Some? && !a.FinishReleases?
    ensures Streams.Next(s, a).value.releases == s.releases
  {
  }

  lemma NewStreamOk()
    ensures Streams.Inv(Streams.NewStream())
  {
  }

  lemma OpenKeepsStream(s: State, a: Action, h: Id)
    requires a.OpenStream? && Next(s, a).Some? && (h in s.streams ==> StreamOk(s, h)) && h in Next(s, a).value.streams
    ensures StreamOk(Next(s, a).value, h)
  {
    if h == a.h {
      NewStreamOk();
    } else {
      HandlesUntouched(s.life, Lifecycle.AddStream(a.h, a.keepSession), h);
    }
  }

  lemma OwnStepKeepsStream(s: State, a: Action, h: Id)
    requires a.InStream? && Next(s, a).Some? && StreamOk(s, h)
    ensures StreamOk(Next(s, a).value, h)
  {
    if h == a.h {
      Streams.StepKeeps(s.streams[h], a.step);
      OnlyReleaseReleases(s.streams[h], a.step);
    }
  }

  lemma ReleaseKeepsStream(s: State, a: Action, h: Id)
    requires a.StreamReleases? && Next(s, a).Some? && StreamOk(s, h)
    ensures StreamOk(Next(s, a).value, h)
  {
    if h == a.h {
      Streams.StepKeeps(s.streams[h], Streams.FinishReleases);
      ReleaseMarks(s.life, a.t, h);
    } else {
      HandlesUntouched(s.life, Lifecycle.Release(a.t, a.h), h);
    }
  }

  lemma ElsewhereKeepsStream(s: State, a: Action, h: Id)
    requires a.Elsewhere? && Next(s, a).Some? && StreamOk(s, h)
    ensures StreamOk(Next(s, a).value, h)
  {
    HandlesUntouched(s.life, a.other, h);
  }

  lemma StreamsKept(s: State, a: Action)
    requires Inv(s) && Next(s, a).Some?
    ensures forall h | h in Next(s, a).value.streams :: StreamOk(Next(s, a).value, h)
  {
    forall h | h in Next(s, a).value.streams
      ensures StreamOk(Next(s, a).value, h)
    {
      assert h in s.streams ==> StreamOk(s, h);
      if a.OpenStream? {
        OpenKeepsStream(s, a, h);
      } else if a.InStream? {
        OwnStepKeepsStream(s, a, h);
      } else if a.StreamReleases? {
        ReleaseKeepsStream(s, a, h);
      } else {
        ElsewhereKeepsStream(s, a, h);
      }
    }
  }

  lemma StepKeeps(s: State, a: Action)
    requires Inv(s) && Next(s, a).Some?
    ensures Inv(Next(s, a).value)
  {
    match a {
      case OpenStream(h, keepSession) => LifecycleProof.StepKeeps(s.life, Lifecycle.AddStream(h, keepSession));
      case InStream(_, _) =>
      case StreamReleases(h, t) => LifecycleProof.StepKeeps(s.life, Lifecycle.Release(t, h));
      case Elsewhere(other) => LifecycleProof.StepKeeps(s.life, other);
    }
    StreamsKept(s, a);
  }

  // ---------------------------------------------------------------- every run

  ghost predicate IsRun(ss: seq<State>, steps: seq<Action>) {
    Runs.IsRun(Next, Init(), ss, steps)
  }

  lemma RunKeeps(ss: seq<State>, steps: seq<Action>, i: nat)
    requires IsRun(ss, steps) && i < |ss|
    ensures Inv(ss[i])
  {
    LifecycleProof.InitOk();
    forall s, a | Inv(s) && Next(s, a).Some?
      ensures Inv(Next(s, a).value)
    {
      StepKeeps(s, a);
    }
    Runs.Invariant(Next, s => Inv(s), Init(), ss, steps, i);
  }

  function OpenStreams(s: State): set<Id> {
    set h | h in s.streams && s.streams[h].releases == 0
  }

  function OpenHealthChecks(s: State): set<Id> {
    set h | h in s.life.handles && h !in s.streams && !s.life.handles[h].released
  }

  /** The counter is the number of streams that have not released plus the health checks under way. */
  lemma CountIsOpenStreams(ss: seq<State>, steps: seq<Action>, i: nat)
    requires IsRun(ss, steps) && i < |ss|
    ensures ss[i].life.streamCount == |OpenStreams(ss[i])| + |OpenHealthChecks(ss[i])|
  {
    RunKeeps(ss, steps, i);
    var s := ss[i];
    assert forall h | h in s.streams :: StreamOk(s, h);
    assert Lifecycle.LiveHandles(s.life) == OpenStreams(s) + OpenHealthChecks(s);
    assert OpenStreams(s) !! OpenHealthChecks(s);
  }

  /** A stream whose round trip failed and was handled, or that some Close has finished with. */
  predicate Over(s: Streams.Stream) {
    (s.worker.WorkerDone? && s.outcome == Some(false)) || s.closes > 0 || s.caller == Streams.Returned(false)
  }

  /** Once every stream is over and no health check runs, the count is back at zero: no stream leaks its handle. */
  lemma NothingLeftCounted(ss: seq<State>, steps: seq<Action>, i: nat)
    requires IsRun(ss, steps) && i < |ss|
    requires forall h | h in ss[i].streams :: Over(ss[i].streams[h])
    requires OpenHealthChecks(ss[i]) == {}
    ensures ss[i].life.streamCount == 0
  {
    RunKeeps(ss, steps, i);
    CountIsOpenStreams(ss, steps, i);
    forall h | h in ss[i].streams
      ensures h !in OpenStreams(ss[i])
    {
      assert StreamOk(ss[i], h);
    }
    assert OpenStreams(ss[i]) == {};
  }

  lemma NoStreamOpens(s: State, t: Id, h: Id, keepSession: bool)
    requires Inv(s) && t in s.life.threads && Lifecycle.HoldsIdleLock(s.life.threads[t])
    ensures Next(s, OpenStream(h, keepSession)).None?
  {
    assert Lifecycle.ThreadOk(s.life, t, s.life.threads[t]);
  }

  /** The idle manager never force-closes under a stream: each one has canceled its request and released by then. */
  lemma IdleCloseSparesStreams(ss: seq<State>, steps: seq<Action>, i: nat, t: Id, h: Id)
    requires IsRun(ss, steps) && i < |ss| && h in ss[i].streams
    requires t in ss[i].life.threads && Lifecycle.HoldsIdleLock(ss[i].life.threads[t])
    ensures ss[i].streams[h].canceled && ss[i].streams[h].releases == 1
    ensures forall h', keepSession :: Next(ss[i], OpenStream(h', keepSession)).None?
  {
    RunKeeps(ss, steps, i);
    var s := ss[i];
    assert Lifecycle.ThreadOk(s.life, t, s.life.threads[t]);
    CountIsOpenStreams(ss, steps, i);
    assert |OpenStreams(s)| == 0;
    assert h !in OpenStreams(s);
    assert StreamOk(s, h);
    forall h', keepSession
      ensures Next(s, OpenStream(h', keepSession)).None?
    {
      NoStreamOpens(s, t, h', keepSession);
    }
  }

  // ---------------------------------------------------------------- finish comes to its end

  lemma FreshThread(threads: map<Id, Lifecycle.Thread>) returns (t: Id)
    ensures t !in threads
  {
    t := AboveAll(threads.Keys);
  }

  lemma {:induction false} AboveAll(ids: set<Id>) returns (bound: Id)
    ensures forall x | x in ids :: x < bound
    decreases ids
  {
    if ids == {} {
      bound := 0;
    } else {
      var x :| x in ids;
      var rest := AboveAll(ids - {x});
      bound := if rest > x then rest else x + 1;
      assert forall y | y in ids :: y == x || y in ids - {x};
    }
  }

  /** A step of finish for stream h, or of whoever holds a lock that finish may be waiting for. */
  predicate OfFinish(s: State, a: Action, h: Id) {
    match a
    case InStream(h', step) => h' == h && step.FinishReturns?
    case StreamReleases(h', _) => h' == h
    case Elsewhere(other) => LifecycleRuns.HolderStep(s.life, other)
    case _ => false
  }

  lemma NobodyInIdleClose(s: State, t: Id)
    requires Lifecycle.Inv(s.life) && s.life.idleLock.None?
    ensures !InIdleClose(s.life, t)
  {
    assert t in s.life.threads ==> Lifecycle.ThreadOk(s.life, t, s.life.threads[t]);
  }

  lemma CanReturn(s: State, h: Id)
    requires Lifecycle.Inv(s.life) && StreamOk(s, h) && s.life.idleLock.None?
    requires s.streams[h].once.Running? && s.streams[h].once.released
    ensures Next(s, InStream(h, Streams.FinishReturns)).Some?
  {
    NobodyInIdleClose(s, s.releasers[h]);
  }

  lemma CanRelease(s: State, h: Id, t: Id)
    requires StreamOk(s, h) && s.life.idleLock.None? && t !in s.life.threads
    requires s.streams[h].once.Running? && !s.streams[h].once.released
    ensures Next(s, StreamReleases(h, t)).Some?
  {
  }

  /**
   * Once a stream's finish has begun, it or the holder of a lock can always take a step: the
   * run-once closure cannot deadlock with the idle manager and the tracker it calls into.
   */
  lemma FinishProgresses(ss: seq<State>, steps: seq<Action>, i: nat, h: Id) returns (a: Action)
    requires IsRun(ss, steps) && i < |ss| && h in ss[i].streams && ss[i].streams[h].once.Running?
    ensures OfFinish(ss[i], a, h) && Next(ss[i], a).Some?
  {
    RunKeeps(ss, steps, i);
    var s := ss[i];
    assert StreamOk(s, h);
    if s.life.idleLock.Some? {
      var other := LifecycleRuns.HolderCanStep(s.life);
      a := Elsewhere(other);
    } else if s.streams[h].once.released {
      a := InStream(h, Streams.FinishReturns);
      CanReturn(s, h);
    } else {
      var t := FreshThread(s.life.threads);
      a := StreamReleases(h, t);
      CanRelease(s, h, t);
    }
  }
}
