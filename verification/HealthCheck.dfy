/**
 * The health-check timer of healthcheck.go under every interleaving of Start, Stop, Postpone, the
 * timer firing, running checks and the client's cancellation.
 */
module HealthCheck {
  import opened Basics
  import Runs

  type Id = nat

  // ---------------------------------------------------------------- the scheduler's sections

  /** The timer field: not created yet, created but not running, or running. */
  datatype Timer = NoTimer | Idle | Armed

  /** The guarded fields of a healthCheckScheduler. */
  datatype Scheduler = Scheduler(started: bool, timer: Timer)

  function StartSection(h: Scheduler): Scheduler {
    Scheduler(true, Armed)
  }

  function PostponeSection(h: Scheduler): Scheduler {
    if h.started then h.(timer := Armed) else h
  }

  function StopSection(h: Scheduler): Scheduler {
    Scheduler(false, if h.timer.NoTimer? then NoTimer else Idle)
  }

  // ---------------------------------------------------------------- states

  /** Where a fired check is. */
  datatype Check =
    | Fired         // before it reads started
    | Probing       // in HealthCheck, waiting for the round trip
    | Probed        // in HealthCheck, before its deferred Postpone
    | Returned      // before it looks at the client's context
    | Stopping      // the context has an error: before Stop
    | Postponing    // it has none: before Postpone

  /** A disabled scheduler is a nil pointer: no fields at all. */
  datatype State = State(scheduler: Option<Scheduler>, canceled: bool, checks: map<Id, Check>)

  function Init(enabled: bool): State {
    State(if enabled then Some(Scheduler(false, NoTimer)) else None, false, map[])
  }

  predicate Started(s: State) {
    s.scheduler.Some? && s.scheduler.value.started
  }

  predicate IsArmed(s: State) {
    s.scheduler.Some? && s.scheduler.value.timer.Armed?
  }

  // ---------------------------------------------------------------- steps

  datatype Action =
    | Start
    | Stop
    | Postpone
    | CancelClient
    | Fire(t: Id)
    | ReadStarted(t: Id)
    | ProbeEnds(t: Id)
    | ProbePostpones(t: Id)
    | LookAtContext(t: Id)
    | CheckStops(t: Id)
    | CheckPostpones(t: Id)

  predicate At(s: State, t: Id, pc: Check) {
    t in s.checks && s.checks[t] == pc
  }

  function Move(s: State, t: Id, pc: Check): State {
    s.(checks := s.checks[t := pc])
  }

  function End(s: State, t: Id): State {
    s.(checks := s.checks - {t})
  }

  /** Start, Stop and Postpone return at once on a nil receiver. */
  function AfterStart(s: State): State {
    if s.scheduler.None? then s else s.(scheduler := Some(StartSection(s.scheduler.value)))
  }

  function AfterStop(s: State): State {
    if s.scheduler.None? then s else s.(scheduler := Some(StopSection(s.scheduler.value)))
  }

  function AfterPostpone(s: State): State {
    if s.scheduler.None? then s else s.(scheduler := Some(PostponeSection(s.scheduler.value)))
  }

  function Next(s: State, a: Action): Option<State> {
    match a
    case Start => Some(AfterStart(s))
    case Stop => Some(AfterStop(s))
    case Postpone => Some(AfterPostpone(s))
    case CancelClient => Some(s.(canceled := true))
    case Fire(t) =>
      if IsArmed(s) && t !in s.checks then
        Some(Move(s.(scheduler := Some(s.scheduler.value.(timer := Idle))), t, Fired))
      else None
    case ReadStarted(t) =>
      if At(s, t, Fired) then Some(if Started(s) then Move(s, t, Probing) else End(s, t)) else None
    case ProbeEnds(t) => if At(s, t, Probing) then Some(Move(s, t, Probed)) else None
    case ProbePostpones(t) => if At(s, t, Probed) then Some(Move(AfterPostpone(s), t, Returned)) else None
    case LookAtContext(t) =>
      if At(s, t, Returned) then Some(Move(s, t, if s.canceled then Stopping else Postponing)) else None
    case CheckStops(t) => if At(s, t, Stopping) then Some(End(AfterStop(s), t)) else None
    case CheckPostpones(t) => if At(s, t, Postponing) then Some(End(AfterPostpone(s), t)) else None
  }

  /** The steps the scheduler takes on its own once it has been started. */
  predicate Internal(a: Action) {
    !(a.Start? || a.Stop? || a.Postpone? || a.CancelClient?)
  }

  // ---------------------------------------------------------------- what every state satisfies

  ghost predicate Inv(s: State) {
    && (IsArmed(s) ==> Started(s))
    && (Started(s) ==> IsArmed(s) || exists t :: t in s.checks)
    && (s.scheduler.None? ==> s.checks == map[])
    && (forall t | t in s.checks :: s.checks[t].Stopping? ==> s.canceled)
  }

  /** A check that leaves while the scheduler is started leaves the timer armed. */
  lemma StepKeeps(s: State, a: Action)
    requires Inv(s) && Next(s, a).Some?
    ensures Inv(Next(s, a).value)
  {
    var s' := Next(s, a).value;
    if a.Fire? || (Internal(a) && a.t in s'.checks) {
      assert a.t in s'.checks;
    } else if Started(s') && !IsArmed(s') {
      var t :| t in s.checks;
      assert t in s'.checks;
    }
  }

  // ---------------------------------------------------------------- every run

  ghost predicate IsRun(ss: seq<State>, steps: seq<Action>, enabled: bool) {
    Runs.IsRun(Next, Init(enabled), ss, steps)
  }

  lemma RunKeeps(ss: seq<State>, steps: seq<Action>, enabled: bool, i: nat)
    requires IsRun(ss, steps, enabled) && i < |ss|
    ensures Inv(ss[i])
    ensures ss[i].scheduler.Some? <==> enabled
  {
    forall s, a | Inv(s) && Next(s, a).Some?
      ensures Inv(Next(s, a).value)
    {
      StepKeeps(s, a);
    }
    Runs.Invariant(Next, s => Inv(s) && (s.scheduler.Some? <==> enabled), Init(enabled), ss, steps, i);
  }

  /**
   * The chain neither dies nor revives: an armed timer means started, and started means armed or a
   * fired check under way. With no check under way, armed and started are the same.
   */
  lemma ChainStaysAlive(ss: seq<State>, steps: seq<Action>, enabled: bool, i: nat)
    requires IsRun(ss, steps, enabled) && i < |ss|
    ensures IsArmed(ss[i]) ==> Started(ss[i])
    ensures Started(ss[i]) ==> IsArmed(ss[i]) || ss[i].checks != map[]
    ensures ss[i].checks == map[] ==> (IsArmed(ss[i]) <==> Started(ss[i]))
  {
    RunKeeps(ss, steps, enabled, i);
  }

  /** While started, the scheduler always has a step of its own to take. */
  lemma AlwaysAStep(ss: seq<State>, steps: seq<Action>, enabled: bool, i: nat) returns (a: Action)
    requires IsRun(ss, steps, enabled) && i < |ss| && Started(ss[i])
    ensures Internal(a) && Next(ss[i], a).Some?
  {
    RunKeeps(ss, steps, enabled, i);
    var s := ss[i];
    if t :| t in s.checks {
      a := match s.checks[t]
        case Fired => ReadStarted(t)
        case Probing => ProbeEnds(t)
        case Probed => ProbePostpones(t)
        case Returned => LookAtContext(t)
        case Stopping => CheckStops(t)
        case Postponing => CheckPostpones(t);
    } else {
      a := Fire(0);
    }
  }

  // ---------------------------------------------------------------- when the scheduler is started

  predicate Stops(a: Action) {
    a.Stop? || a.CheckStops?
  }

  /** A Start at step j with no Stop from there up to step i. */
  ghost predicate StartedSince(steps: seq<Action>, j: nat, i: nat)
    requires i <= |steps|
  {
    j < i && steps[j].Start? && forall k | j < k < i :: !Stops(steps[k])
  }

  lemma StartedAfter(s: State, a: Action)
    requires Next(s, a).Some? && s.scheduler.Some?
    ensures Started(Next(s, a).value) <==> a.Start? || (Started(s) && !Stops(a))
  {
  }

  /** The scheduler is started exactly if the last Start is later than the last Stop. */
  lemma {:induction false} StartedMeans(ss: seq<State>, steps: seq<Action>, i: nat)
    requires IsRun(ss, steps, true) && i < |ss|
    ensures Started(ss[i]) <==> exists j :: StartedSince(steps, j, i)
  {
    if i > 0 {
      StartedMeans(ss, steps, i - 1);
      RunKeeps(ss, steps, true, i - 1);
      assert Runs.StepAt(Next, ss, steps, i - 1);
      StartedAfter(ss[i - 1], steps[i - 1]);
      if steps[i - 1].Start? {
        assert StartedSince(steps, i - 1, i);
      } else if Started(ss[i]) {
        var j :| StartedSince(steps, j, i - 1);
        assert StartedSince(steps, j, i);
      } else if j :| StartedSince(steps, j, i) {
        assert StartedSince(steps, j, i - 1);
      }
    }
  }

  /**
   * After a Stop, by the client or by a check that saw the client canceled, and with no later
   * Start, the timer is never armed again and never fires again, whatever checks were under way.
   */
  lemma StopIsFinal(ss: seq<State>, steps: seq<Action>, enabled: bool, j: nat, i: nat)
    requires IsRun(ss, steps, enabled) && j < i < |ss| && Stops(steps[j])
    requires forall k | j < k < i :: !steps[k].Start?
    ensures !Started(ss[i]) && !IsArmed(ss[i])
    ensures i < |steps| ==> !steps[i].Fire?
  {
    RunKeeps(ss, steps, enabled, i);
    if enabled {
      StartedMeans(ss, steps, i);
    }
    if i < |steps| {
      assert Runs.StepAt(Next, ss, steps, i);
    }
  }

  /** A timer only ever fires while some Start has not been stopped. */
  lemma FiringNeedsStart(ss: seq<State>, steps: seq<Action>, enabled: bool, i: nat)
    requires IsRun(ss, steps, enabled) && i < |steps| && steps[i].Fire?
    ensures exists j :: StartedSince(steps, j, i)
  {
    assert Runs.StepAt(Next, ss, steps, i);
    RunKeeps(ss, steps, enabled, i);
    StartedMeans(ss, steps, i);
  }

  /** A fired check goes on to probe exactly if some Start has not been stopped by the time it looks. */
  lemma ProbingNeedsStart(ss: seq<State>, steps: seq<Action>, i: nat, t: Id)
    requires IsRun(ss, steps, true) && i < |steps| && steps[i] == ReadStarted(t)
    ensures At(ss[i + 1], t, Probing) <==> exists j :: StartedSince(steps, j, i)
    ensures t in ss[i + 1].checks ==> At(ss[i + 1], t, Probing)
  {
    assert Runs.StepAt(Next, ss, steps, i);
    StartedMeans(ss, steps, i);
  }

  /** Whenever the timer has just been seen to, by anybody, it is armed exactly if the scheduler is started. */
  lemma PostponingArms(ss: seq<State>, steps: seq<Action>, enabled: bool, i: nat)
    requires IsRun(ss, steps, enabled) && i < |steps|
    requires steps[i].Start? || steps[i].Postpone? || steps[i].ProbePostpones? || steps[i].CheckPostpones?
    ensures IsArmed(ss[i + 1]) <==> Started(ss[i + 1])
    ensures Started(ss[i + 1]) <==> enabled && (steps[i].Start? || Started(ss[i]))
  {
    RunKeeps(ss, steps, enabled, i);
    assert Runs.StepAt(Next, ss, steps, i);
  }

  /** A check only ever stops the scheduler of a canceled client. */
  lemma LiveClientIsNotStopped(ss: seq<State>, steps: seq<Action>, enabled: bool, i: nat)
    requires IsRun(ss, steps, enabled) && i < |steps| && steps[i].CheckStops?
    ensures ss[i].canceled
  {
    RunKeeps(ss, steps, enabled, i);
    assert Runs.StepAt(Next, ss, steps, i);
  }

  /** Firing disarms the timer and starts one check; it can happen exactly while the timer is armed. */
  lemma FiringStartsCheck(s: State, t: Id)
    requires t !in s.checks
    ensures Next(s, Fire(t)).Some? <==> IsArmed(s)
    ensures IsArmed(s) ==>
              var s' := Next(s, Fire(t)).value;
              At(s', t, Fired) && !IsArmed(s') && Started(s') == Started(s)
  {
  }

  /** Start, Stop, Postpone and a cancellation can come at any moment. */
  lemma CallsBegin(s: State, a: Action)
    ensures !Internal(a) ==> Next(s, a).Some? && Next(s, a).value.checks == s.checks
  {
  }

  function Cancels(): (State, Action) -> bool {
    (s: State, a: Action) => a.CancelClient?
  }

  /** The client counts as canceled exactly if it was. */
  lemma CanceledMeans(ss: seq<State>, steps: seq<Action>, enabled: bool, i: nat)
    requires IsRun(ss, steps, enabled) && i < |ss|
    ensures ss[i].canceled <==> Runs.Occurred(Cancels(), ss, steps, i)
  {
    forall s, a | Next(s, a).Some?
      ensures Next(s, a).value.canceled <==> s.canceled || Cancels()(s, a)
    {
    }
    Runs.Marked(Next, s => true, (s: State) => s.canceled, Cancels(), Init(enabled), ss, steps, i);
  }

  /** A check that looks at the client's context goes on to stop exactly if the client is canceled, else to postpone. */
  lemma LookingDecides(s: State, t: Id)
    requires At(s, t, Returned)
    ensures Next(s, LookAtContext(t)).Some?
    ensures At(Next(s, LookAtContext(t)).value, t, if s.canceled then Stopping else Postponing)
  {
  }

  // ---------------------------------------------------------------- after the client is canceled

  /** The client is canceled and the check has not been told to go on: it will be told to stop. */
  ghost predicate NotPostponing(s: State, t: Id) {
    s.canceled && t in s.checks && !s.checks[t].Postponing?
  }

  lemma NotPostponingStays(s: State, a: Action, t: Id)
    requires Next(s, a).Some? && NotPostponing(s, t) && a != ReadStarted(t) && a != CheckStops(t)
    ensures NotPostponing(Next(s, a).value, t)
  {
  }

  lemma {:induction false} StillNotPostponing(ss: seq<State>, steps: seq<Action>, i: nat, k: nat, t: Id)
    requires IsRun(ss, steps, true) && i <= k < |ss| && NotPostponing(ss[i], t)
    requires forall j | i <= j <= k :: t in ss[j].checks
    ensures NotPostponing(ss[k], t)
  {
    if i < k {
      StillNotPostponing(ss, steps, i, k - 1, t);
      assert Runs.StepAt(Next, ss, steps, k - 1);
      var a := steps[k - 1];
      if a == ReadStarted(t) {
        assert ss[k].checks[t] == Probing;
      } else {
        assert a != CheckStops(t);
        NotPostponingStays(ss[k - 1], a, t);
      }
    }
  }

  /**
   * A check under way when the client is canceled, short of its last Postpone, stops the scheduler
   * when it ends, unless it found the scheduler stopped to begin with.
   */
  lemma CanceledCheckStops(ss: seq<State>, steps: seq<Action>, i: nat, k: nat, t: Id)
    requires IsRun(ss, steps, true) && i < k < |ss| && NotPostponing(ss[i], t)
    requires t in ss[k - 1].checks && t !in ss[k].checks
    requires forall j | i <= j < k :: t in ss[j].checks
    ensures !Started(ss[k]) && !IsArmed(ss[k])
    ensures steps[k - 1] == CheckStops(t) || steps[k - 1] == ReadStarted(t)
  {
    RunKeeps(ss, steps, true, k);
    StillNotPostponing(ss, steps, i, k - 1, t);
    assert Runs.StepAt(Next, ss, steps, k - 1);
  }

  // ---------------------------------------------------------------- a disabled scheduler

  /** A disabled scheduler never fires and never starts a check. */
  lemma DisabledIsInert(ss: seq<State>, steps: seq<Action>, i: nat)
    requires IsRun(ss, steps, false) && i < |ss|
    ensures ss[i].scheduler.None? && ss[i].checks == map[]
    ensures i < |steps| ==> !Internal(steps[i])
  {
    RunKeeps(ss, steps, false, i);
    if i < |steps| {
      assert Runs.StepAt(Next, ss, steps, i);
    }
  }
}
