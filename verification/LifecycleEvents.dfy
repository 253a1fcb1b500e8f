/**
 * The marks a state carries, tied to the steps that set them, and what a call that has begun comes to:
 * the client's connections as a history of events.
 */
module LifecycleEvents {
  import opened Basics
  import opened Lifecycle
  import opened LifecycleRuns
  import LifecycleProof
  import Runs

  lemma InvKept(s: State, a: Action)
    requires Inv(s) && Next(s, a).Some?
    ensures Inv(Next(s, a).value)
  {
    LifecycleProof.StepKeeps(s, a);
  }

  /** Marked, for this system: the mark of every step has to be shown for every state and step. */
  lemma MarkMeans(mark: State -> bool, q: (State, Action) -> bool, ss: seq<State>, steps: seq<Action>, i: nat)
    requires IsRun(ss, steps) && i < |ss| && !mark(Init())
    requires forall s, a | Inv(s) && Next(s, a).Some? :: mark(Next(s, a).value) <==> mark(s) || q(s, a)
    ensures mark(ss[i]) <==> Runs.Occurred(q, ss, steps, i)
  {
    forall s, a | Inv(s) && Next(s, a).Some?
      ensures Inv(Next(s, a).value)
    {
      InvKept(s, a);
    }
    LifecycleProof.InitOk();
    Runs.Marked(Next, s => Inv(s), mark, q, Init(), ss, steps, i);
  }

  // ---------------------------------------------------------------- streams' handles

  function Opens(h: Id): (State, Action) -> bool {
    (s: State, a: Action) => a.AddStream? && a.h == h
  }

  function Releases(h: Id): (State, Action) -> bool {
    (s: State, a: Action) => a.Release? && a.h == h
  }

  ghost predicate HandleFollows(s: State, a: Action, s': State, h: Id) {
    && (h in s'.handles <==> h in s.handles || (a.AddStream? && a.h == h))
    && (a.AddStream? && a.h == h ==> h !in s.handles && s'.handles[h].keepSession == a.keepSession)
    && (h in s.handles ==> s'.handles[h].keepSession == s.handles[h].keepSession)
    && (h in s'.handles && s'.handles[h].released <==>
          (h in s.handles && s.handles[h].released) || (a.Release? && a.h == h))
    && (a.Release? && a.h == h ==> h in s.handles && !s.handles[h].released)
  }

  lemma HandleInIdle(s: State, a: Action, h: Id)
    requires IdleStep(s, a).Some?
    ensures HandleFollows(s, a, IdleStep(s, a).value, h)
  {
  }

  lemma HandleElsewhere(s: State, a: Action, h: Id)
    requires Next(s, a).Some? && IdleStep(s, a).None?
    ensures Next(s, a).value.handles == s.handles && !a.AddStream? && !a.Release?
  {
  }

  lemma HandleStep(s: State, a: Action, h: Id)
    requires Next(s, a).Some?
    ensures HandleFollows(s, a, Next(s, a).value, h)
  {
    if IdleStep(s, a).Some? {
      HandleInIdle(s, a, h);
    } else {
      HandleElsewhere(s, a, h);
    }
  }

  /** A handle is there exactly if its AddStream was, and released exactly if its Release was. */
  lemma HandleMeans(ss: seq<State>, steps: seq<Action>, i: nat, h: Id)
    requires IsRun(ss, steps) && i < |ss|
    ensures h in ss[i].handles <==> Runs.Occurred(Opens(h), ss, steps, i)
    ensures h in ss[i].handles && ss[i].handles[h].released <==> Runs.Occurred(Releases(h), ss, steps, i)
  {
    forall s, a | Inv(s) && Next(s, a).Some?
      ensures h in Next(s, a).value.handles <==> h in s.handles || Opens(h)(s, a)
      ensures h in Next(s, a).value.handles && Next(s, a).value.handles[h].released <==>
              (h in s.handles && s.handles[h].released) || Releases(h)(s, a)
    {
      HandleStep(s, a, h);
    }
    MarkMeans((s: State) => h in s.handles, Opens(h), ss, steps, i);
    MarkMeans((s: State) => h in s.handles && s.handles[h].released, Releases(h), ss, steps, i);
  }

  /** And it keeps the session exactly if that AddStream said so. */
  lemma {:induction false} KeepSessionMeans(ss: seq<State>, steps: seq<Action>, i: nat, h: Id, keepSession: bool)
    requires IsRun(ss, steps) && i < |ss|
    ensures Runs.Happened(steps, i, AddStream(h, keepSession)) <==>
            h in ss[i].handles && ss[i].handles[h].keepSession == keepSession
  {
    if i > 0 {
      KeepSessionMeans(ss, steps, i - 1, h, keepSession);
      RunKeeps(ss, steps, i - 1);
      assert Runs.StepAt(Next, ss, steps, i - 1);
      HandleStep(ss[i - 1], steps[i - 1], h);
      Runs.HappenedNext(steps, i - 1, AddStream(h, keepSession));
    }
  }

  /** A last release, as events: of the only live handle, not to keep the session, with no SetKeep(true) in force. */
  ghost predicate IsLastRelease(ss: seq<State>, steps: seq<Action>, i: nat, t: Id, h: Id)
    requires i < |steps| < |ss|
  {
    && steps[i] == Release(t, h) && ss[i].streamCount == 1
    && Runs.Happened(steps, i, AddStream(h, false))
    && !exists j :: KeptSince(steps, j, i)
  }

  lemma LastReleaseMeans(ss: seq<State>, steps: seq<Action>, i: nat, t: Id, h: Id)
    requires IsRun(ss, steps) && i < |steps| && steps[i] == Release(t, h)
    ensures IsLastRelease(ss, steps, i, t, h) <==>
            ss[i].streamCount == 1 && !ss[i].keep && h in ss[i].handles && !ss[i].handles[h].keepSession
  {
    KeepSessionMeans(ss, steps, i, h, false);
    KeepMeans(ss, steps, i);
  }

  /** Every forced idle close has a cause of its own: a last release, or CloseIdle with no stream open. */
  lemma IdleCloseHasCause(ss: seq<State>, steps: seq<Action>, j: nat, t: Id) returns (i: nat)
    requires IsRun(ss, steps) && j < |steps| && steps[j] == ForceClose(t, IdleClose)
    ensures i < j
    ensures steps[i] == CloseIdle(t) || steps[i].Release?
    ensures steps[i] == CloseIdle(t) ==> ss[i].streamCount == 0
    ensures steps[i].Release? ==> IsLastRelease(ss, steps, i, t, steps[i].h)
    ensures forall m | i < m < j :: steps[m] != ForceClose(t, IdleClose)
  {
    i := CauseOfClose(ss, steps, j, t);
    if steps[i].Release? {
      LastReleaseMeans(ss, steps, i, t, steps[i].h);
    }
  }

  // ---------------------------------------------------------------- the client's own cancel

  function CancelsParent(): (State, Action) -> bool {
    (s: State, a: Action) => a.CancelParent? || a.ClientCloseBegin?
  }

  lemma ParentErrStep(s: State, a: Action)
    requires Next(s, a).Some?
    ensures Next(s, a).value.tracker.parentErr <==> s.tracker.parentErr || CancelsParent()(s, a)
  {
  }

  /** The parent has an error exactly if somebody canceled it: the client, or whoever owns its context. */
  lemma ParentErrMeans(ss: seq<State>, steps: seq<Action>, i: nat)
    requires IsRun(ss, steps) && i < |ss|
    ensures ss[i].tracker.parentErr <==> Runs.Occurred(CancelsParent(), ss, steps, i)
  {
    forall s, a | Inv(s) && Next(s, a).Some?
      ensures Next(s, a).value.tracker.parentErr <==> s.tracker.parentErr || CancelsParent()(s, a)
    {
      ParentErrStep(s, a);
    }
    MarkMeans((s: State) => s.tracker.parentErr, CancelsParent(), ss, steps, i);
  }

  function Finalizes(): (State, Action) -> bool {
    (s: State, a: Action) => a.ForceClose? && a.origin.ClientClose?
  }

  lemma FinalizedStep(s: State, a: Action)
    requires Next(s, a).Some?
    ensures Next(s, a).value.finalized <==> s.finalized || Finalizes()(s, a)
  {
  }

  lemma FinalizedMeans(ss: seq<State>, steps: seq<Action>, i: nat)
    requires IsRun(ss, steps) && i < |ss|
    ensures ss[i].finalized <==> Runs.Occurred(Finalizes(), ss, steps, i)
  {
    forall s, a | Inv(s) && Next(s, a).Some?
      ensures Next(s, a).value.finalized <==> s.finalized || Finalizes()(s, a)
    {
      FinalizedStep(s, a);
    }
    MarkMeans((s: State) => s.finalized, Finalizes(), ss, steps, i);
  }

  /** A canceled parent reaches a context when it is delivered, and the context stays canceled. */
  lemma DeliveredStays(s: State, a: Action, g: nat)
    requires Next(s, a).Some?
    ensures a == DeliverCancel(g) ==> g in Next(s, a).value.tracker.canceled
    ensures g in s.tracker.canceled ==> g in Next(s, a).value.tracker.canceled
  {
  }

  // ---------------------------------------------------------------- a connection's marks

  function Dialed(c: Id): (State, Action) -> bool {
    (s: State, a: Action) => a.DialYields? && a.c == c
  }

  /** Track inserts c. */
  function Inserts(c: Id): (State, Action) -> bool {
    (s: State, a: Action) => a.TrackInsert? && a.t in s.threads && s.threads[a.t].Checked? && s.threads[a.t].c == c
  }

  /** Conn.Close of c: by a Track that refused it, by its own Close, or by the tracker's. */
  function Closes(c: Id): (State, Action) -> bool {
    (s: State, a: Action) =>
      || (a.RejectClose? && a.t in s.threads && s.threads[a.t] == Rejected(c))
      || (a.SelfRawClose? && a.t in s.threads && s.threads[a.t] == SelfUntracked(c))
      || (a.CloserRaw? && a.t in s.threads && s.threads[a.t].Closing? && s.threads[a.t].current == Some(c))
  }

  /** The closed flag of c is set. */
  function Flags(c: Id): (State, Action) -> bool {
    (s: State, a: Action) => (a.SelfCloseBegin? || a.CloserStore?) && a.c == c
  }

  predicate IsThere(s: State, c: Id) {
    c in s.conn
  }

  predicate IsAccepted(s: State, c: Id) {
    c in s.conn && s.conn[c].accepted
  }

  predicate IsRawClosed(s: State, c: Id) {
    c in s.conn && s.conn[c].rawClosed
  }

  predicate IsFlagged(s: State, c: Id) {
    c in s.conn && s.conn[c].flag
  }

  lemma ThereStep(s: State, a: Action, c: Id)
    requires Inv(s) && Next(s, a).Some?
    ensures IsThere(Next(s, a).value, c) <==> IsThere(s, c) || Dialed(c)(s, a)
  {
  }

  lemma AcceptedStep(s: State, a: Action, c: Id)
    requires Next(s, a).Some?
    ensures IsAccepted(Next(s, a).value, c) <==> IsAccepted(s, c) || Inserts(c)(s, a)
  {
    if DialStep(s, a).Some? {
      AcceptedInDial(s, a, c);
    } else {
      AcceptedElsewhere(s, a, c);
    }
  }

  lemma AcceptedInDial(s: State, a: Action, c: Id)
    requires DialStep(s, a).Some?
    ensures IsAccepted(DialStep(s, a).value, c) <==> IsAccepted(s, c) || Inserts(c)(s, a)
  {
  }

  lemma AcceptedElsewhere(s: State, a: Action, c: Id)
    requires Next(s, a).Some? && DialStep(s, a).None?
    ensures IsAccepted(Next(s, a).value, c) <==> IsAccepted(s, c) || Inserts(c)(s, a)
  {
  }

  lemma RawClosedStep(s: State, a: Action, c: Id)
    requires Inv(s) && Next(s, a).Some?
    ensures IsRawClosed(Next(s, a).value, c) <==> IsRawClosed(s, c) || Closes(c)(s, a)
  {
    if DialStep(s, a).Some? {
      RawClosedInDial(s, a, c);
    } else if CloserStep(s, a).Some? {
      RawClosedInCloser(s, a, c);
    } else {
      RawClosedElsewhere(s, a, c);
    }
  }

  lemma RawClosedInDial(s: State, a: Action, c: Id)
    requires ThreadsOk(s) && DialStep(s, a).Some?
    ensures IsRawClosed(DialStep(s, a).value, c) <==> IsRawClosed(s, c) || Closes(c)(s, a)
  {
  }

  lemma RawClosedInCloser(s: State, a: Action, c: Id)
    requires ThreadsOk(s) && CloserStep(s, a).Some?
    ensures IsRawClosed(CloserStep(s, a).value, c) <==> IsRawClosed(s, c) || Closes(c)(s, a)
  {
  }

  lemma RawClosedElsewhere(s: State, a: Action, c: Id)
    requires ThreadsOk(s) && Next(s, a).Some? && DialStep(s, a).None? && CloserStep(s, a).None?
    ensures IsRawClosed(Next(s, a).value, c) <==> IsRawClosed(s, c) || Closes(c)(s, a)
  {
  }

  lemma FlaggedStep(s: State, a: Action, c: Id)
    requires Inv(s) && Next(s, a).Some?
    ensures IsFlagged(Next(s, a).value, c) <==> IsFlagged(s, c) || Flags(c)(s, a)
  {
    if DialStep(s, a).Some? {
      FlaggedInDial(s, a, c);
    } else if CloserStep(s, a).Some? {
      FlaggedInCloser(s, a, c);
    } else {
      FlaggedElsewhere(s, a, c);
    }
  }

  lemma FlaggedInDial(s: State, a: Action, c: Id)
    requires DialStep(s, a).Some?
    ensures IsFlagged(DialStep(s, a).value, c) <==> IsFlagged(s, c) || Flags(c)(s, a)
  {
  }

  lemma FlaggedInCloser(s: State, a: Action, c: Id)
    requires ThreadsOk(s) && CloserStep(s, a).Some?
    ensures IsFlagged(CloserStep(s, a).value, c) <==> IsFlagged(s, c) || Flags(c)(s, a)
  {
  }

  lemma FlaggedElsewhere(s: State, a: Action, c: Id)
    requires Next(s, a).Some? && DialStep(s, a).None? && CloserStep(s, a).None?
    ensures IsFlagged(Next(s, a).value, c) <==> IsFlagged(s, c) || Flags(c)(s, a)
  {
  }

  /** A connection's marks say what happened to it, and nothing else does. */
  lemma ConnectionMarks(ss: seq<State>, steps: seq<Action>, i: nat, c: Id)
    requires IsRun(ss, steps) && i < |ss|
    ensures IsThere(ss[i], c) <==> Runs.Occurred(Dialed(c), ss, steps, i)
    ensures IsAccepted(ss[i], c) <==> Runs.Occurred(Inserts(c), ss, steps, i)
    ensures IsRawClosed(ss[i], c) <==> Runs.Occurred(Closes(c), ss, steps, i)
    ensures IsFlagged(ss[i], c) <==> Runs.Occurred(Flags(c), ss, steps, i)
  {
    forall s, a | Inv(s) && Next(s, a).Some?
      ensures IsThere(Next(s, a).value, c) <==> IsThere(s, c) || Dialed(c)(s, a)
      ensures IsAccepted(Next(s, a).value, c) <==> IsAccepted(s, c) || Inserts(c)(s, a)
      ensures IsRawClosed(Next(s, a).value, c) <==> IsRawClosed(s, c) || Closes(c)(s, a)
      ensures IsFlagged(Next(s, a).value, c) <==> IsFlagged(s, c) || Flags(c)(s, a)
    {
      ThereStep(s, a, c);
      AcceptedStep(s, a, c);
      RawClosedStep(s, a, c);
      FlaggedStep(s, a, c);
    }
    MarkMeans(s => IsThere(s, c), Dialed(c), ss, steps, i);
    MarkMeans(s => IsAccepted(s, c), Inserts(c), ss, steps, i);
    MarkMeans(s => IsRawClosed(s, c), Closes(c), ss, steps, i);
    MarkMeans(s => IsFlagged(s, c), Flags(c), ss, steps, i);
  }

  // ---------------------------------------------------------------- a connection's own Close

  predicate SelfClosing(s: State, t: Id, c: Id) {
    t in s.threads && (s.threads[t] == SelfSwapped(c) || s.threads[t] == SelfUntracked(c))
  }

  lemma SelfCloseStep(s: State, a: Action, t: Id, c: Id)
    requires Inv(s) && Next(s, a).Some? && SelfClosing(s, t, c)
    ensures SelfClosing(Next(s, a).value, t, c) || IsRawClosed(Next(s, a).value, c)
  {
    if DialStep(s, a).Some? {
      SelfClosingInDial(s, a, t, c);
    } else if SelfStep(s, a).Some? {
      SelfClosingInSelf(s, a, t, c);
    } else {
      SelfClosingElsewhere(s, a, t, c);
    }
  }

  lemma SelfClosingInDial(s: State, a: Action, t: Id, c: Id)
    requires DialStep(s, a).Some? && SelfClosing(s, t, c)
    ensures SelfClosing(DialStep(s, a).value, t, c)
  {
  }

  lemma SelfClosingInSelf(s: State, a: Action, t: Id, c: Id)
    requires ThreadsOk(s) && SelfStep(s, a).Some? && SelfClosing(s, t, c)
    ensures SelfClosing(SelfStep(s, a).value, t, c) || IsRawClosed(SelfStep(s, a).value, c)
  {
  }

  lemma SelfClosingElsewhere(s: State, a: Action, t: Id, c: Id)
    requires Next(s, a).Some? && DialStep(s, a).None? && SelfStep(s, a).None? && SelfClosing(s, t, c)
    ensures SelfClosing(Next(s, a).value, t, c)
  {
  }

  /** The first Close of a connection is at work until it has closed it. */
  lemma {:induction false} SelfCloseCloses(ss: seq<State>, steps: seq<Action>, i: nat, k: nat, t: Id, c: Id)
    requires IsRun(ss, steps) && i < k < |ss| && steps[i] == SelfCloseBegin(t, c) && !IsFlagged(ss[i], c)
    ensures SelfClosing(ss[k], t, c) || IsRawClosed(ss[k], c)
  {
    RunKeeps(ss, steps, k - 1);
    assert Runs.StepAt(Next, ss, steps, k - 1);
    if i < k - 1 {
      SelfCloseCloses(ss, steps, i, k - 1, t, c);
      if IsRawClosed(ss[k - 1], c) {
        RawClosedStep(ss[k - 1], steps[k - 1], c);
      } else {
        SelfCloseStep(ss[k - 1], steps[k - 1], t, c);
      }
    }
  }

  /** And then it is no longer tracked. */
  lemma ClosedIsUntracked(ss: seq<State>, steps: seq<Action>, i: nat, c: Id)
    requires IsRun(ss, steps) && i < |ss| && IsRawClosed(ss[i], c)
    ensures c !in ss[i].tracker.conns
  {
    RunKeeps(ss, steps, i);
    assert ConnOk(ss[i], c);
  }

  // ---------------------------------------------------------------- which calls can begin, and go on

  /** Nothing but the locks keeps a call from beginning: dials and closes wait for the tracker's. */
  lemma CallsBegin(s: State, t: Id, c: Id)
    ensures Next(s, BeginDial(t)).Some? <==> t !in s.threads && s.lock.None?
    ensures Next(s, ForceClose(t, DirectClose)).Some? <==> t !in s.threads && s.lock.None?
    ensures Next(s, ClientCloseBegin(t)).Some? <==> t !in s.threads
    ensures Next(s, CancelParent).Some?
    ensures Next(s, SelfCloseBegin(t, c)).Some? <==> t !in s.threads && c in s.conn && s.conn[c].accepted
  {
  }

  /** Streams wait for the idle lock. */
  lemma StreamCallsBegin(s: State, t: Id, h: Id, flag: bool)
    ensures Next(s, AddStream(h, flag)).Some? <==> s.idleLock.None? && h !in s.handles
    ensures Next(s, Release(t, h)).Some? <==>
            s.idleLock.None? && t !in s.threads && h in s.handles && !s.handles[h].released
    ensures Next(s, CloseIdle(t)).Some? <==> s.idleLock.None? && t !in s.threads
    ensures Next(s, SetKeep(flag)).Some? <==> s.idleLock.None?
  {
  }

  /** A dial under way may fail, or yield any connection not seen before. */
  lemma DialsEnd(s: State, t: Id, c: Id)
    requires t in s.threads && s.threads[t].Dialing?
    ensures Next(s, DialFails(t)).Some? && t !in Next(s, DialFails(t)).value.threads
    ensures c !in s.conn ==> Next(s, DialYields(t, c)).Some?
                             && Next(s, DialYields(t, c)).value.threads[t] == Tracking(s.threads[t].gen, c)
  {
  }

  /** What thread t does next by itself. */
  predicate IsOwnStep(s: State, t: Id, a: Action)
    requires t in s.threads
  {
    match s.threads[t]
    case Dialing(_) => a == DialFails(t)
    case Tracking(_, _) => a == TrackCheck(t)
    case Checked(_, _) => a == TrackInsert(t)
    case Rejected(_) => a == RejectClose(t)
    case SelfSwapped(_) => a == SelfUntrack(t)
    case SelfUntracked(_) => a == SelfRawClose(t)
    case Closing(_, _, _) => a == CloserRaw(t) || a == CloserDone(t) || (a.CloserStore? && a.t == t)
    case ClientCanceling => a == ClientCancelReturns(t) || (a.DeliverCancel? && a.gen !in s.tracker.canceled)
    case ClientCanceled => a == ForceClose(t, ClientClose)
    case IdleLocked => a == ForceClose(t, IdleClose)
  }

  lemma CloserCanStep(s: State, t: Id) returns (a: Action)
    requires t in s.threads && s.threads[t].Closing?
    ensures IsOwnStep(s, t, a) && Next(s, a).Some?
  {
    if s.threads[t].current.Some? {
      a := CloserRaw(t);
    } else if s.threads[t].todo == {} {
      a := CloserDone(t);
    } else {
      var c :| c in s.threads[t].todo;
      a := CloserStore(t, c);
    }
  }

  lemma CancelCanStep(s: State, t: Id) returns (a: Action)
    requires Inv(s) && t in s.threads && s.threads[t].ClientCanceling?
    ensures IsOwnStep(s, t, a) && Next(s, a).Some?
  {
    assert ThreadOk(s, t, s.threads[t]);
    if AllCanceled(s.tracker) {
      a := ClientCancelReturns(t);
    } else {
      var g: int :| 0 <= g <= s.tracker.gen && g !in s.tracker.canceled;
      a := DeliverCancel(g);
    }
  }

  /** No call ever gets stuck: while the tracker's lock is free every thread has a step of its own to take. */
  lemma ThreadsGoOn(ss: seq<State>, steps: seq<Action>, i: nat, t: Id) returns (a: Action)
    requires IsRun(ss, steps) && i < |ss| && t in ss[i].threads
    requires ss[i].lock.None? || ss[i].threads[t].Checked?
    ensures IsOwnStep(ss[i], t, a) && Next(ss[i], a).Some?
  {
    RunKeeps(ss, steps, i);
    var s := ss[i];
    assert ThreadOk(s, t, s.threads[t]);
    if s.threads[t].Closing? {
      a := CloserCanStep(s, t);
    } else if s.threads[t].ClientCanceling? {
      a := CancelCanStep(s, t);
    } else {
      a := match s.threads[t]
        case Dialing(_) => DialFails(t)
        case Tracking(_, _) => TrackCheck(t)
        case Checked(_, _) => TrackInsert(t)
        case Rejected(_) => RejectClose(t)
        case SelfSwapped(_) => SelfUntrack(t)
        case SelfUntracked(_) => SelfRawClose(t)
        case ClientCanceled => ForceClose(t, ClientClose)
        case _ => ForceClose(t, IdleClose);
    }
  }
}
