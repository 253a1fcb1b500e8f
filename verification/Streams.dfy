/**
 * One stream from openStream to its last Close under every interleaving: the goroutine and the
 * caller of client.go's openStream, Dial's error path, and httpConn of protocol.go.
 */
module Streams {
  import opened Basics
  import Runs

  type Id = nat

  // ---------------------------------------------------------------- the sections of httpConn

  /** The guarded fields of an httpConn: closed, whether a body is installed, whether createErr is set. */
  datatype Guarded = Guarded(closed: bool, body: bool, failed: bool)

  /** The critical section of setUp, given whether the round trip brought a body. */
  function SetUpSection(g: Guarded, ok: bool): Guarded {
    Guarded(g.closed, if g.closed then g.body else ok, !ok || g.closed)
  }

  /** The critical section of Close. */
  function CloseSection(g: Guarded): Guarded {
    g.(closed := true)
  }

  // ---------------------------------------------------------------- states

  /** The goroutine that runs the round trip. */
  datatype Worker =
    | RoundTripping
    | Reporting(ok: bool)                  // before reportEstablished
    | BeforeSetUp(ok: bool)
    | InSetUp(ok: bool, sawClosed: bool)   // after the section, before close(created)
    | ClosingBody                          // created is closed, the body still has to be
    | BeforeFinish                         // after a failed setUp
    | InFinish
    | WorkerDone

  /** The goroutine that called openStream. */
  datatype Caller = Waiting | Failing | Returned(ok: bool)

  /** A call of httpConn.Close. */
  datatype Closer = BeforeHook | InHook | AfterHook | AfterSection(tookBody: bool)

  datatype Runner = ByWorker | ByCloser(t: Id)

  /** sync.OnceFunc around cancel() and release(): the first caller runs it, the others wait for it. */
  datatype Once = NotRun | Running(runner: Runner, released: bool) | Ran

  datatype Stream = Stream(
    guarded: Guarded,
    created: bool,
    outcome: Option<bool>,
    bodyClosed: bool,
    once: Once,
    releases: nat,
    canceled: bool,
    established: Option<bool>,
    worker: Worker,
    caller: Caller,
    closers: map<Id, Closer>,
    closes: nat)

  function NewStream(): Stream {
    Stream(Guarded(false, false, false), false, None, false, NotRun, 0, false, None, RoundTripping, Waiting, map[], 0)
  }

  /** The Close that Dial and its siblings run when openStream fails. */
  const CALLER: Id := 0

  // ---------------------------------------------------------------- steps

  datatype Action =
    | GotConn
    | RoundTripEnds(ok: bool)
    | Report
    | SetUp
    | CloseCreated
    | CloseLateBody
    | WorkerEntersFinish
    | CallerReceives
    | CallerCanceled
    | CloseBegins(t: Id)
    | CloserEntersHook(t: Id)
    | FinishReleases
    | FinishReturns
    | CloserSection(t: Id)
    | CloserEnds(t: Id)

  function Offer(established: Option<bool>, ok: bool): Option<bool> {
    if established.None? then Some(ok) else established
  }

  function WorkerStep(s: Stream, a: Action): Option<Stream> {
    match a
    case GotConn =>
      if s.worker.RoundTripping? then Some(s.(established := Offer(s.established, true))) else None
    case RoundTripEnds(ok) =>
      if s.worker.RoundTripping? then Some(s.(worker := Reporting(ok), outcome := Some(ok))) else None
    case Report =>
      if s.worker.Reporting? then
        Some(s.(worker := BeforeSetUp(s.worker.ok), established := Offer(s.established, s.worker.ok)))
      else None
    case SetUp =>
      if s.worker.BeforeSetUp? then
        Some(s.(worker := InSetUp(s.worker.ok, s.guarded.closed), guarded := SetUpSection(s.guarded, s.worker.ok)))
      else None
    case CloseCreated =>
      if s.worker.InSetUp? then
        Some(s.(created := true,
                worker := if !s.worker.ok then BeforeFinish
                          else if s.worker.sawClosed then ClosingBody else WorkerDone))
      else None
    case CloseLateBody =>
      if s.worker.ClosingBody? then Some(s.(bodyClosed := true, worker := WorkerDone)) else None
    case WorkerEntersFinish =>
      if !s.worker.BeforeFinish? || s.once.Running? then None
      else if s.once.NotRun? then Some(s.(once := Running(ByWorker, false), worker := InFinish))
      else Some(s.(worker := WorkerDone))
    case _ => None
  }

  /** openStream's caller, and the body of finish whoever runs it. */
  function CallerStep(s: Stream, a: Action): Option<Stream> {
    match a
    case CallerReceives =>
      if !s.caller.Waiting? || s.established.None? then None
      else if s.established.value then Some(s.(caller := Returned(true)))
      else Some(s.(caller := Failing, closers := s.closers[CALLER := BeforeHook]))
    case CallerCanceled =>
      if s.caller.Waiting? then Some(s.(caller := Failing, closers := s.closers[CALLER := BeforeHook])) else None
    case FinishReleases =>
      if s.once.Running? && !s.once.released then
        Some(s.(once := s.once.(released := true), releases := s.releases + 1, canceled := true))
      else None
    case FinishReturns =>
      if s.once.Running? && s.once.released then
        match s.once.runner
        case ByWorker => Some(s.(once := Ran, worker := WorkerDone))
        case ByCloser(t) => Some(s.(once := Ran, closers := s.closers[t := AfterHook]))
      else None
    case _ => None
  }

  function CloserStep(s: Stream, a: Action): Option<Stream> {
    match a
    case CloseBegins(t) =>
      if s.caller == Returned(true) && t !in s.closers && t != CALLER then
        Some(s.(closers := s.closers[t := BeforeHook]))
      else None
    case CloserEntersHook(t) =>
      if t !in s.closers || !s.closers[t].BeforeHook? || s.once.Running? then None
      else if s.once.NotRun? then Some(s.(once := Running(ByCloser(t), false), closers := s.closers[t := InHook]))
      else Some(s.(closers := s.closers[t := AfterHook]))
    case CloserSection(t) =>
      if t in s.closers && s.closers[t].AfterHook? then
        Some(s.(guarded := CloseSection(s.guarded), closers := s.closers[t := AfterSection(s.guarded.body)]))
      else None
    case CloserEnds(t) =>
      if t in s.closers && s.closers[t].AfterSection? then
        Some(s.(bodyClosed := s.bodyClosed || s.closers[t].tookBody, closers := s.closers - {t}, closes := s.closes + 1,
                caller := if t == CALLER then Returned(false) else s.caller))
      else None
    case _ => None
  }

  function Next(s: Stream, a: Action): Option<Stream> {
    if a.CallerReceives? || a.CallerCanceled? || a.FinishReleases? || a.FinishReturns? then CallerStep(s, a)
    else if a.CloseBegins? || a.CloserEntersHook? || a.CloserSection? || a.CloserEnds? then CloserStep(s, a)
    else WorkerStep(s, a)
  }

  // ---------------------------------------------------------------- what every state satisfies

  /** setUp has passed its critical section. */
  predicate IsSetUp(s: Stream) {
    s.worker.InSetUp? || s.worker.ClosingBody? || s.worker.BeforeFinish? || s.worker.InFinish? || s.worker.WorkerDone?
  }

  predicate WorkerOk(s: Stream) {
    match s.worker
    case RoundTripping => s.outcome == None
    case Reporting(ok) => s.outcome == Some(ok)
    case BeforeSetUp(ok) => s.outcome == Some(ok)
    case InSetUp(ok, sawClosed) => s.outcome == Some(ok) && !s.created && (sawClosed ==> s.guarded.closed)
                                   && s.guarded.body == (ok && !sawClosed)
    case ClosingBody => s.outcome == Some(true) && s.guarded.closed && !s.guarded.body
    case BeforeFinish => s.outcome == Some(false) && !s.guarded.body
    case InFinish => s.outcome == Some(false) && !s.guarded.body
    case WorkerDone =>
      && s.outcome.Some?
      && (s.outcome == Some(false) ==> s.once.Ran? && !s.guarded.body)
      && (s.outcome == Some(true) && !s.guarded.body ==> s.bodyClosed)
  }

  predicate OnceOk(s: Stream) {
    && (s.worker.InFinish? ==> s.once.Running? && s.once.runner == ByWorker)
    && (s.once.Running? && s.once.runner.ByWorker? ==> s.worker.InFinish?)
    && (s.once.Running? && s.once.runner.ByCloser? ==>
          s.once.runner.t in s.closers && s.closers[s.once.runner.t].InHook?)
    && s.releases == (if s.once.Ran? || (s.once.Running? && s.once.released) then 1 else 0)
    && (s.canceled <==> s.releases == 1)
  }

  predicate GuardedOk(s: Stream) {
    && (!IsSetUp(s) ==> !s.guarded.body && !s.created)
    && (IsSetUp(s) ==> s.guarded.failed == !s.guarded.body)
    && (s.created <==> IsSetUp(s) && !s.worker.InSetUp?)
    && (s.guarded.body ==> s.outcome == Some(true))
    && (s.bodyClosed ==> s.guarded.closed && s.outcome == Some(true) && IsSetUp(s))
    && (s.guarded.closed ==> s.once.Ran?)
    && (s.closes > 0 ==> s.guarded.closed)
    && (s.guarded.body && s.closes > 0 ==> s.bodyClosed)
    && (s.caller == Returned(false) ==> s.closes > 0)
    && (s.caller.Failing? ==> CALLER in s.closers)
  }

  ghost predicate CloserOk(s: Stream, t: Id)
    requires t in s.closers
  {
    match s.closers[t]
    case BeforeHook => true
    case InHook => s.once.Running? && s.once.runner == ByCloser(t)
    case AfterHook => s.once.Ran?
    case AfterSection(tookBody) =>
      && s.guarded.closed && s.once.Ran?
      && (s.guarded.body ==> tookBody) && (tookBody ==> s.guarded.body && IsSetUp(s))
  }

  /** What openStream's caller was told. */
  predicate CallerOk(s: Stream) {
    && (s.caller == Returned(true) ==> s.established == Some(true))
    && (s.established == Some(false) ==> s.outcome == Some(false))
    && (s.established.None? ==> s.worker.RoundTripping? || s.worker.Reporting?)
  }

  ghost predicate Inv(s: Stream) {
    && WorkerOk(s) && OnceOk(s) && GuardedOk(s) && CallerOk(s)
    && (forall t | t in s.closers :: CloserOk(s, t))
    && (CALLER in s.closers ==> s.caller.Failing?)
  }

  lemma WorkerKeeps(s: Stream, a: Action)
    requires Inv(s) && WorkerStep(s, a).Some? && (a.GotConn? || a.RoundTripEnds? || a.Report?)
    ensures Inv(WorkerStep(s, a).value)
  {
  }

  lemma SetUpKeeps(s: Stream, a: Action)
    requires Inv(s) && WorkerStep(s, a).Some? && (a.SetUp? || a.CloseCreated?)
    ensures Inv(WorkerStep(s, a).value)
  {
  }

  lemma WorkerEndKeeps(s: Stream, a: Action)
    requires Inv(s) && WorkerStep(s, a).Some? && (a.CloseLateBody? || a.WorkerEntersFinish?)
    ensures Inv(WorkerStep(s, a).value)
  {
  }

  lemma FinishReturnsKeeps(s: Stream)
    requires Inv(s) && CallerStep(s, FinishReturns).Some?
    ensures Inv(CallerStep(s, FinishReturns).value)
  {
    assert s.once.runner.ByCloser? ==> CloserOk(s, s.once.runner.t);
  }

  lemma FinishReleasesKeeps(s: Stream)
    requires Inv(s) && CallerStep(s, FinishReleases).Some?
    ensures Inv(CallerStep(s, FinishReleases).value)
  {
  }

  lemma FailureKeeps(s: Stream, s': Stream)
    requires Inv(s) && s.caller.Waiting?
    requires s' == s.(caller := Failing, closers := s.closers[CALLER := BeforeHook])
    ensures Inv(s')
  {
  }

  lemma ReceiveKeeps(s: Stream)
    requires Inv(s) && CallerStep(s, CallerReceives).Some?
    ensures Inv(CallerStep(s, CallerReceives).value)
  {
    if s.established == Some(false) {
      FailureKeeps(s, CallerStep(s, CallerReceives).value);
    }
  }

  lemma CancelKeeps(s: Stream)
    requires Inv(s) && CallerStep(s, CallerCanceled).Some?
    ensures Inv(CallerStep(s, CallerCanceled).value)
  {
    FailureKeeps(s, CallerStep(s, CallerCanceled).value);
  }

  lemma SectionKeeps(s: Stream, t: Id)
    requires Inv(s) && CloserStep(s, CloserSection(t)).Some?
    ensures Inv(CloserStep(s, CloserSection(t)).value)
  {
    assert CloserOk(s, t);
  }

  lemma CloserEndKeeps(s: Stream, t: Id)
    requires Inv(s) && CloserStep(s, CloserEnds(t)).Some?
    ensures Inv(CloserStep(s, CloserEnds(t)).value)
  {
    assert CloserOk(s, t);
  }

  lemma CloserKeeps(s: Stream, a: Action)
    requires Inv(s) && CloserStep(s, a).Some? && (a.CloseBegins? || a.CloserEntersHook?)
    ensures Inv(CloserStep(s, a).value)
  {
  }

  lemma StepKeeps(s: Stream, a: Action)
    requires Inv(s) && Next(s, a).Some?
    ensures Inv(Next(s, a).value)
  {
    if a.GotConn? || a.RoundTripEnds? || a.Report? {
      WorkerKeeps(s, a);
    } else if a.SetUp? || a.CloseCreated? {
      SetUpKeeps(s, a);
    } else if a.CloseLateBody? || a.WorkerEntersFinish? {
      WorkerEndKeeps(s, a);
    } else if a.FinishReturns? {
      FinishReturnsKeeps(s);
    } else if a.FinishReleases? {
      FinishReleasesKeeps(s);
    } else if a.CallerReceives? {
      ReceiveKeeps(s);
    } else if a.CallerCanceled? {
      CancelKeeps(s);
    } else if a.CloserSection? {
      SectionKeeps(s, a.t);
    } else if a.CloserEnds? {
      CloserEndKeeps(s, a.t);
    } else {
      CloserKeeps(s, a);
    }
  }

  // ---------------------------------------------------------------- every run

  ghost predicate IsRun(ss: seq<Stream>, steps: seq<Action>) {
    Runs.IsRun(Next, NewStream(), ss, steps)
  }

  lemma RunKeeps(ss: seq<Stream>, steps: seq<Action>, i: nat)
    requires IsRun(ss, steps) && i < |ss|
    ensures Inv(ss[i])
  {
    forall s, a | Inv(s) && Next(s, a).Some?
      ensures Inv(Next(s, a).value)
    {
      StepKeeps(s, a);
    }
    Runs.Invariant(Next, s => Inv(s), NewStream(), ss, steps, i);
  }

  /**
   * A stream releases its handle and cancels its request at most once, and exactly once by the time
   * its failure handling is over, any Close has returned, or Dial has reported an error.
   */
  lemma ReleasedExactlyOnce(ss: seq<Stream>, steps: seq<Action>, i: nat)
    requires IsRun(ss, steps) && i < |ss|
    ensures var s := ss[i];
            && s.releases <= 1
            && (s.canceled <==> s.releases == 1)
            && (s.worker.WorkerDone? && s.outcome == Some(false) ==> s.releases == 1)
            && (s.closes > 0 ==> s.releases == 1)
            && (s.caller == Returned(false) ==> s.releases == 1)
  {
    RunKeeps(ss, steps, i);
  }

  /**
   * The response body is never lost and never closed under a reader: once the worker and one Close
   * are done it is closed, and it is only ever closed after a Close has passed its section.
   */
  lemma BodyNeverLost(ss: seq<Stream>, steps: seq<Action>, i: nat)
    requires IsRun(ss, steps) && i < |ss|
    ensures var s := ss[i];
            && (s.worker.WorkerDone? && s.outcome == Some(true) && s.closes > 0 ==> s.bodyClosed)
            && (s.bodyClosed ==> s.guarded.closed)
  {
    RunKeeps(ss, steps, i);
  }

  /** waitCreated returns nil exactly when the body was installed. */
  lemma WaitCreatedMeansBody(ss: seq<Stream>, steps: seq<Action>, i: nat)
    requires IsRun(ss, steps) && i < |ss| && ss[i].created
    ensures !ss[i].guarded.failed <==> ss[i].guarded.body
    ensures ss[i].guarded.body ==> ss[i].outcome == Some(true)
  {
    RunKeeps(ss, steps, i);
  }

  lemma ClosedWithoutBodyStays(s: Stream, a: Action)
    requires Next(s, a).Some? && s.guarded.closed && !s.guarded.body
    ensures Next(s, a).value.guarded.closed && !Next(s, a).value.guarded.body
  {
  }

  /** If a Close passes its section before setUp does, every waitCreated returns an error. */
  lemma {:induction false} CloseFirstFailsWait(ss: seq<Stream>, steps: seq<Action>, i: nat, k: nat)
    requires IsRun(ss, steps) && i <= k < |ss| && ss[i].guarded.closed && !IsSetUp(ss[i])
    ensures ss[k].guarded.closed && !ss[k].guarded.body
    ensures ss[k].created ==> ss[k].guarded.failed
  {
    RunKeeps(ss, steps, k);
    if i < k {
      CloseFirstFailsWait(ss, steps, i, k - 1);
      assert Runs.StepAt(Next, ss, steps, k - 1);
      ClosedWithoutBodyStays(ss[k - 1], steps[k - 1]);
    }
  }

  // ---------------------------------------------------------------- what openStream reports

  lemma OutcomeSet(s: Stream, a: Action)
    requires Inv(s) && Next(s, a).Some?
    ensures var s' := Next(s, a).value;
            s'.outcome == s.outcome || (s'.outcome.Some? && a == RoundTripEnds(s'.outcome.value))
  {
  }

  lemma EstablishedSet(s: Stream, a: Action)
    requires Inv(s) && Next(s, a).Some?
    ensures var s' := Next(s, a).value;
            if s.established.Some? then s'.established == s.established
            else if a.GotConn? then s'.established == Some(true)
            else s'.established == None || s'.established == s'.outcome
  {
  }

  /** The outcome of the round trip is the one it ended with. */
  lemma {:induction false} OutcomeHappened(ss: seq<Stream>, steps: seq<Action>, i: nat)
    requires IsRun(ss, steps) && i < |ss| && ss[i].outcome.Some?
    ensures Runs.Happened(steps, i, RoundTripEnds(ss[i].outcome.value))
  {
    if i > 0 {
      RunKeeps(ss, steps, i - 1);
      assert Runs.StepAt(Next, ss, steps, i - 1);
      OutcomeSet(ss[i - 1], steps[i - 1]);
      Runs.HappenedNext(steps, i - 1, RoundTripEnds(ss[i].outcome.value));
      if ss[i - 1].outcome.Some? {
        OutcomeHappened(ss, steps, i - 1);
      }
    }
  }

  /** No connection is got after a failure has been reported. */
  lemma GotConnStep(s: Stream, a: Action)
    requires Inv(s) && Next(s, a).Some? && a.GotConn?
    ensures Next(s, a).value.established == Some(true)
  {
    if s.established.Some? {
      assert s.established.value;
    }
  }

  /** Success is in the channel exactly if a connection was got or, with nothing there yet, the round trip succeeded. */
  lemma {:induction false} EstablishedHappened(ss: seq<Stream>, steps: seq<Action>, i: nat)
    requires IsRun(ss, steps) && i < |ss|
    ensures ss[i].established == Some(true) ==>
              Runs.Happened(steps, i, GotConn) || Runs.Happened(steps, i, RoundTripEnds(true))
    ensures Runs.Happened(steps, i, GotConn) ==> ss[i].established == Some(true)
    ensures ss[i].established == Some(false) ==> Runs.Happened(steps, i, RoundTripEnds(false))
  {
    if i > 0 {
      EstablishedHappened(ss, steps, i - 1);
      RunKeeps(ss, steps, i - 1);
      assert Runs.StepAt(Next, ss, steps, i - 1);
      EstablishedSet(ss[i - 1], steps[i - 1]);
      if steps[i - 1].GotConn? {
        GotConnStep(ss[i - 1], steps[i - 1]);
      }
      Runs.HappenedNext(steps, i - 1, GotConn);
      Runs.HappenedNext(steps, i - 1, RoundTripEnds(true));
      Runs.HappenedNext(steps, i - 1, RoundTripEnds(false));
      if ss[i].outcome.Some? {
        OutcomeHappened(ss, steps, i);
      }
    }
  }

  predicate HasFailed(caller: Caller) {
    caller.Failing? || caller == Returned(false)
  }

  lemma FailureStep(s: Stream, a: Action)
    requires Inv(s) && Next(s, a).Some? && HasFailed(Next(s, a).value.caller)
    ensures HasFailed(s.caller) || a == CallerCanceled || s.established == Some(false)
  {
  }

  lemma {:induction false} FailureHappened(ss: seq<Stream>, steps: seq<Action>, i: nat)
    requires IsRun(ss, steps) && i < |ss| && HasFailed(ss[i].caller)
    ensures Runs.Happened(steps, i, CallerCanceled) || ss[i].established == Some(false)
  {
    if i > 0 {
      RunKeeps(ss, steps, i - 1);
      assert Runs.StepAt(Next, ss, steps, i - 1);
      FailureStep(ss[i - 1], steps[i - 1]);
      EstablishedSet(ss[i - 1], steps[i - 1]);
      Runs.HappenedNext(steps, i - 1, CallerCanceled);
      if HasFailed(ss[i - 1].caller) {
        FailureHappened(ss, steps, i - 1);
      }
    }
  }

  /**
   * openStream succeeds only if a connection was got or the round trip succeeded. It fails only if
   * its caller gave up, or the round trip failed before any connection was got.
   */
  lemma SuccessMeansEstablished(ss: seq<Stream>, steps: seq<Action>, i: nat)
    requires IsRun(ss, steps) && i < |ss|
    ensures ss[i].caller == Returned(true) ==>
              Runs.Happened(steps, i, GotConn) || Runs.Happened(steps, i, RoundTripEnds(true))
    ensures HasFailed(ss[i].caller) ==>
              || Runs.Happened(steps, i, CallerCanceled)
              || (Runs.Happened(steps, i, RoundTripEnds(false)) && !Runs.Happened(steps, i, GotConn))
    ensures ss[i].established == Some(false) ==> ss[i].outcome == Some(false)
  {
    RunKeeps(ss, steps, i);
    EstablishedHappened(ss, steps, i);
    if HasFailed(ss[i].caller) {
      FailureHappened(ss, steps, i);
    }
  }

  // ---------------------------------------------------------------- marks and the steps that set them

  function Takes(a: Action): (Stream, Action) -> bool {
    (s: Stream, b: Action) => b == a
  }

  function SectionsPassed(): (Stream, Action) -> bool {
    (s: Stream, a: Action) => a.CloserSection?
  }

  function ClosesEnded(): (Stream, Action) -> bool {
    (s: Stream, a: Action) => a.CloserEnds?
  }

  /** Body.Close: by the goroutine whose body came too late, or by a Close that found it. */
  function BodyClosers(): (Stream, Action) -> bool {
    (s: Stream, a: Action) =>
      a.CloseLateBody? || (a.CloserEnds? && a.t in s.closers && s.closers[a.t] == AfterSection(true))
  }

  lemma MarkMeans(mark: Stream -> bool, q: (Stream, Action) -> bool, ss: seq<Stream>, steps: seq<Action>, i: nat)
    requires IsRun(ss, steps) && i < |ss| && !mark(NewStream())
    requires forall s, a | Inv(s) && Next(s, a).Some? :: mark(Next(s, a).value) <==> mark(s) || q(s, a)
    ensures mark(ss[i]) <==> Runs.Occurred(q, ss, steps, i)
  {
    forall s, a | Inv(s) && Next(s, a).Some?
      ensures Inv(Next(s, a).value)
    {
      StepKeeps(s, a);
    }
    Runs.Marked(Next, s => Inv(s), mark, q, NewStream(), ss, steps, i);
  }

  lemma MarkStep(s: Stream, a: Action)
    requires Inv(s) && Next(s, a).Some?
    ensures var s' := Next(s, a).value;
            && (s'.created <==> s.created || a.CloseCreated?)
            && (s'.guarded.closed <==> s.guarded.closed || a.CloserSection?)
            && (s'.closes > 0 <==> s.closes > 0 || a.CloserEnds?)
            && (s'.releases > 0 <==> s.releases > 0 || a.FinishReleases?)
  {
  }

  lemma BodyStep(s: Stream, a: Action)
    requires Inv(s) && Next(s, a).Some?
    ensures Next(s, a).value.bodyClosed <==> s.bodyClosed || BodyClosers()(s, a)
  {
  }

  /** created, closed, the finished Closes, the release and the closing of the body: each says what has happened. */
  lemma StreamMarks(ss: seq<Stream>, steps: seq<Action>, i: nat)
    requires IsRun(ss, steps) && i < |ss|
    ensures ss[i].created <==> Runs.Occurred(Takes(CloseCreated), ss, steps, i)
    ensures ss[i].guarded.closed <==> Runs.Occurred(SectionsPassed(), ss, steps, i)
    ensures ss[i].closes > 0 <==> Runs.Occurred(ClosesEnded(), ss, steps, i)
    ensures ss[i].releases > 0 <==> Runs.Occurred(Takes(FinishReleases), ss, steps, i)
    ensures ss[i].bodyClosed <==> Runs.Occurred(BodyClosers(), ss, steps, i)
  {
    forall s, a | Inv(s) && Next(s, a).Some?
      ensures Next(s, a).value.created <==> s.created || Takes(CloseCreated)(s, a)
      ensures Next(s, a).value.guarded.closed <==> s.guarded.closed || SectionsPassed()(s, a)
      ensures Next(s, a).value.closes > 0 <==> s.closes > 0 || ClosesEnded()(s, a)
      ensures Next(s, a).value.releases > 0 <==> s.releases > 0 || Takes(FinishReleases)(s, a)
      ensures Next(s, a).value.bodyClosed <==> s.bodyClosed || BodyClosers()(s, a)
    {
      MarkStep(s, a);
      BodyStep(s, a);
    }
    MarkMeans((s: Stream) => s.created, Takes(CloseCreated), ss, steps, i);
    MarkMeans((s: Stream) => s.guarded.closed, SectionsPassed(), ss, steps, i);
    MarkMeans((s: Stream) => s.closes > 0, ClosesEnded(), ss, steps, i);
    MarkMeans((s: Stream) => s.releases > 0, Takes(FinishReleases), ss, steps, i);
    MarkMeans((s: Stream) => s.bodyClosed, BodyClosers(), ss, steps, i);
  }

  lemma CloserLeaves(s: Stream, a: Action, t: Id)
    requires Inv(s) && Next(s, a).Some?
    ensures a == CloseBegins(t) ==> t in Next(s, a).value.closers
    ensures t in s.closers && a != CloserEnds(t) ==> t in Next(s, a).value.closers
  {
  }

  /** A Close that has begun is under way until it has ended, and then the conn is closed and its body with it. */
  lemma {:induction false} CloseComesToEnd(ss: seq<Stream>, steps: seq<Action>, i: nat, k: nat, t: Id)
    requires IsRun(ss, steps) && i < k < |ss| && steps[i] == CloseBegins(t)
    ensures t in ss[k].closers || ss[k].closes > 0
  {
    RunKeeps(ss, steps, k - 1);
    assert Runs.StepAt(Next, ss, steps, k - 1);
    CloserLeaves(ss[k - 1], steps[k - 1], t);
    MarkStep(ss[k - 1], steps[k - 1]);
    if i < k - 1 {
      CloseComesToEnd(ss, steps, i, k - 1, t);
    }
  }

  /** What the transport, the caller and whoever holds the conn can do is up to them. */
  lemma CallsBegin(s: Stream, t: Id, ok: bool)
    ensures Next(s, GotConn).Some? <==> s.worker.RoundTripping?
    ensures Next(s, RoundTripEnds(ok)).Some? <==> s.worker.RoundTripping?
    ensures Next(s, CallerCanceled).Some? <==> s.caller.Waiting?
    ensures Next(s, CloseBegins(t)).Some? <==> s.caller == Returned(true) && t !in s.closers && t != CALLER
  {
  }

  // ---------------------------------------------------------------- every Close comes to its end

  /** What is left of finish, for whoever runs it. */
  function FinishLeft(once: Once): nat {
    match once
    case NotRun => 3
    case Running(_, released) => if released then 1 else 2
    case Ran => 0
  }

  /** The steps a Close still waits for: its own, and those of finish. */
  function StepsLeft(s: Stream, t: Id): nat {
    if t !in s.closers then 0
    else
      match s.closers[t]
      case BeforeHook => 3 + FinishLeft(s.once)
      case InHook => 3 + FinishLeft(s.once)
      case AfterHook => 2
      case AfterSection(_) => 1
  }

  /** The steps of finish and of the Close in thread t: none of them waits for the round trip. */
  predicate OfClose(a: Action, t: Id) {
    a in {CloserEntersHook(t), CloserSection(t), CloserEnds(t), FinishReleases, FinishReturns}
  }

  /**
   * No Close waits for anything but finish: in every state a Close under way, or the finish it waits
   * for, can take a step, and that step leaves it less to do.
   */
  lemma CloseProgresses(ss: seq<Stream>, steps: seq<Action>, i: nat, t: Id) returns (a: Action)
    requires IsRun(ss, steps) && i < |ss| && t in ss[i].closers
    ensures OfClose(a, t) && Next(ss[i], a).Some?
    ensures StepsLeft(Next(ss[i], a).value, t) < StepsLeft(ss[i], t) <= 6
  {
    RunKeeps(ss, steps, i);
    var s := ss[i];
    assert CloserOk(s, t);
    a := match s.closers[t]
      case BeforeHook => if s.once.Running? then FinishStep(s.once) else CloserEntersHook(t)
      case InHook => FinishStep(s.once)
      case AfterHook => CloserSection(t)
      case AfterSection(_) => CloserEnds(t);
  }

  function FinishStep(once: Once): Action
    requires once.Running?
  {
    if once.released then FinishReturns else FinishReleases
  }

  lemma NothingSetsBack(s: Stream, a: Action, t: Id)
    requires Inv(s) && Next(s, a).Some? && t in s.closers
    ensures StepsLeft(Next(s, a).value, t) <= StepsLeft(s, t)
  {
    assert CloserOk(s, t);
  }

  /** Whatever else runs meanwhile, no step gives a Close under way more to do. */
  lemma {:induction false} CloseNeverSetBack(ss: seq<Stream>, steps: seq<Action>, i: nat, k: nat, t: Id)
    requires IsRun(ss, steps) && i <= k < |ss|
    requires forall j | i <= j < k :: t in ss[j].closers
    ensures StepsLeft(ss[k], t) <= StepsLeft(ss[i], t)
  {
    if i < k {
      CloseNeverSetBack(ss, steps, i, k - 1, t);
      RunKeeps(ss, steps, k - 1);
      assert Runs.StepAt(Next, ss, steps, k - 1);
      NothingSetsBack(ss[k - 1], steps[k - 1], t);
    }
  }

  /** What the goroutine still has to do, or waits for, once the round trip is over. */
  function WorkerLeft(s: Stream): nat {
    match s.worker
    case RoundTripping => 9
    case Reporting(_) => 8
    case BeforeSetUp(_) => 7
    case InSetUp(_, _) => 6
    case ClosingBody => 1
    case BeforeFinish => 2 + FinishLeft(s.once)
    case InFinish => 1 + FinishLeft(s.once)
    case WorkerDone => 0
  }

  /** The same for the goroutine: once the round trip has ended it only ever waits for finish. */
  lemma WorkerProgresses(ss: seq<Stream>, steps: seq<Action>, i: nat) returns (a: Action)
    requires IsRun(ss, steps) && i < |ss| && !ss[i].worker.RoundTripping? && !ss[i].worker.WorkerDone?
    ensures a in {Report, SetUp, CloseCreated, CloseLateBody, WorkerEntersFinish, FinishReleases, FinishReturns}
    ensures Next(ss[i], a).Some? && WorkerLeft(Next(ss[i], a).value) < WorkerLeft(ss[i])
  {
    RunKeeps(ss, steps, i);
    var s := ss[i];
    if s.worker.Reporting? {
      a := Report;
    } else if s.worker.BeforeSetUp? {
      a := SetUp;
    } else if s.worker.InSetUp? {
      a := CloseCreated;
    } else if s.worker.ClosingBody? {
      a := CloseLateBody;
    } else if s.worker.BeforeFinish? && !s.once.Running? {
      a := WorkerEntersFinish;
    } else {
      a := FinishStep(s.once);
    }
  }

  lemma WorkerNotSetBack(s: Stream, a: Action)
    requires Inv(s) && Next(s, a).Some?
    ensures WorkerLeft(Next(s, a).value) <= WorkerLeft(s)
  {
  }

  lemma {:induction false} WorkerNeverSetBack(ss: seq<Stream>, steps: seq<Action>, i: nat, k: nat)
    requires IsRun(ss, steps) && i <= k < |ss|
    ensures WorkerLeft(ss[k]) <= WorkerLeft(ss[i])
  {
    if i < k {
      WorkerNeverSetBack(ss, steps, i, k - 1);
      RunKeeps(ss, steps, k - 1);
      assert Runs.StepAt(Next, ss, steps, k - 1);
      WorkerNotSetBack(ss[k - 1], steps[k - 1]);
    }
  }

  /** openStream's caller is always free to leave on its own context, and once the outcome is reported on that too. */
  lemma CallerProgresses(ss: seq<Stream>, steps: seq<Action>, i: nat)
    requires IsRun(ss, steps) && i < |ss| && ss[i].caller.Waiting?
    ensures Next(ss[i], CallerCanceled).Some?
    ensures !ss[i].worker.RoundTripping? && !ss[i].worker.Reporting? ==> Next(ss[i], CallerReceives).Some?
  {
    RunKeeps(ss, steps, i);
  }
}
