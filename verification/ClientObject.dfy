/** The objects of healthcheck.go and the calls of client.go that drive every manager at once. */
module ClientObject {
  import opened Basics
  import opened Connections
  import opened IdleStreams
  import opened HttpConns
  import HealthCheck
  import Lifecycle
  import Streams

  class Timer {
    var armed: bool

    /** time.AfterFunc. */
    constructor ()
      ensures armed
    {
      armed := true;
    }

    method Reset()
      modifies this
      ensures armed
    {
      armed := true;
    }

    method Stop()
      modifies this
      ensures !armed
    {
      armed := false;
    }
  }

  /** Its methods take a nil receiver, so they are static here. */
  class HealthCheckScheduler {
    var started: bool
    var timer: Timer?

    ghost function Value(): HealthCheck.Scheduler
      reads this, timer
    {
      HealthCheck.Scheduler(started, if timer == null then HealthCheck.NoTimer
                                     else if timer.armed then HealthCheck.Armed else HealthCheck.Idle)
    }

    constructor ()
      ensures HealthCheck.Init(true).scheduler == Some(Value()) && timer == null
    {
      started, timer := false, null;
    }

    static method Start(h: HealthCheckScheduler?)
      modifies h, Timers(h)
      ensures h != null ==> h.Value() == HealthCheck.StartSection(old(h.Value())) && TimerKept(h, old(Timers(h)))
    {
      if h == null {
        return;
      }
      h.started := true;
      h.ResetTimerLocked();
    }

    static method Postpone(h: HealthCheckScheduler?)
      modifies h, Timers(h)
      ensures h != null ==> h.Value() == HealthCheck.PostponeSection(old(h.Value())) && TimerKept(h, old(Timers(h)))
    {
      if h == null {
        return;
      }
      if !h.started {
        return;
      }
      h.ResetTimerLocked();
    }

    static method Stop(h: HealthCheckScheduler?)
      modifies h, Timers(h)
      ensures h != null ==> h.Value() == HealthCheck.StopSection(old(h.Value())) && TimerKept(h, old(Timers(h)))
    {
      if h == null {
        return;
      }
      h.started := false;
      if h.timer != null {
        h.timer.Stop();
      }
    }

    method ResetTimerLocked()
      modifies this`timer, timer
      ensures timer != null && timer.armed && TimerKept(this, old(Timers(this)))
    {
      if timer == null {
        timer := new Timer();
        return;
      }
      timer.Reset();
    }
  }

  ghost function Timers(h: HealthCheckScheduler?): set<Timer>
    reads h
  {
    if h == null || h.timer == null then {} else {h.timer}
  }

  /** The timer is created at most once. */
  twostate predicate TimerKept(h: HealthCheckScheduler, before: set<Timer>)
    reads h
  {
    (before != {} ==> Timers(h) == before) && (before == {} ==> fresh(Timers(h)))
  }

  class Client {
    const ctx: Context
    const tracker: ConnTracker
    const idle: IdleManager
    const healthCheck: HealthCheckScheduler?

    ghost predicate Valid()
      reads this, ctx, tracker, tracker.contexts, idle
    {
      && tracker.parent == ctx && idle.tracker == tracker
      && idle.Valid()
    }

    constructor (enableHealthCheck: bool)
      ensures Valid() && !ctx.err && tracker.conns == {} && idle.live == {}
      ensures healthCheck != null <==> enableHealthCheck
      ensures healthCheck != null ==> healthCheck.Value() == HealthCheck.Scheduler(false, HealthCheck.NoTimer)
    {
      var background := new Context.Background();
      var newTracker := new ConnTracker(background);
      var manager := new IdleManager(newTracker);
      ctx, tracker, idle := background, newTracker, manager;
      var scheduler: HealthCheckScheduler? := null;
      if enableHealthCheck {
        scheduler := new HealthCheckScheduler();
      }
      healthCheck := scheduler;
    }

    /**
     * Afterwards nothing is tracked, everything that was is closed, every context a dial may hold is
     * canceled, so that no Track succeeds any more, and the health check is stopped.
     */
    method Close()
      requires Valid()
      modifies ctx, healthCheck, Timers(healthCheck)
      modifies tracker, tracker.derivedContext, tracker.conns, tracker.RawConns()
      ensures Valid() && ctx.err && tracker.conns == {}
      ensures forall c | c in old(tracker.conns) :: c.closed && c.conn.closed
      ensures forall g | 0 <= g < |tracker.contexts| :: tracker.contexts[g].err
      ensures healthCheck != null ==> healthCheck.Value() == HealthCheck.StopSection(old(healthCheck.Value()))
    {
      ctx.Cancel();
      HealthCheckScheduler.Stop(healthCheck);
      tracker.Close();
    }

    /** Drops every connection, but later dials are welcome unless the client itself is closed. */
    method ResetConnections()
      requires Valid()
      modifies healthCheck, Timers(healthCheck)
      modifies tracker, tracker.derivedContext, tracker.conns, tracker.RawConns()
      ensures Valid() && tracker.ClosedSince(old(tracker.Value()))
      ensures tracker.conns == {} && tracker.derivedContext.err == ctx.err
      ensures healthCheck != null ==> healthCheck.Value() == HealthCheck.PostponeSection(old(healthCheck.Value()))
    {
      tracker.Close();
      HealthCheckScheduler.Postpone(healthCheck);
    }

    method SetKeepIdleConnections(keep: bool)
      requires Valid()
      modifies idle`keep, healthCheck, Timers(healthCheck)
      modifies tracker, tracker.derivedContext, tracker.conns, tracker.RawConns()
      ensures Valid() && idle.keep == keep
      ensures keep || idle.streamCount > 0 ==> tracker.Untouched()
      ensures !keep && idle.streamCount == 0 ==> tracker.ClosedSince(old(tracker.Value()))
      ensures healthCheck != null ==>
                healthCheck.Value() == if keep then HealthCheck.StartSection(old(healthCheck.Value()))
                                       else HealthCheck.StopSection(old(healthCheck.Value()))
    {
      idle.SetKeep(keep);
      assert Valid() && tracker.Untouched();
      if keep {
        HealthCheckScheduler.Start(healthCheck);
        return;
      }
      HealthCheckScheduler.Stop(healthCheck);
      assert Valid() && tracker.Untouched() && tracker.Value() == old(tracker.Value());
      idle.CloseIdle();
    }

    /** The part of openStream before its goroutine starts: one handle, released by the conn's hook. */
    method BeginStream(keepSession: bool) returns (conn: HttpConn)
      requires Valid()
      modifies idle`streamCount, idle`live
      ensures Valid() && idle.streamCount == old(idle.streamCount) + 1
      ensures fresh(conn) && conn.Valid() && conn.HookValid() && conn.Value() == Streams.NewStream().guarded
      ensures conn.closeHook != null && !conn.closeHook.done && conn.closeHook.requestCtx.err == ctx.err
      ensures idle.live == old(idle.live) + {conn.closeHook.release} && fresh(conn.closeHook.release)
      ensures conn.closeHook.release.keepSession == keepSession && conn.closeHook.release.manager == idle
      ensures fresh(conn.closeHook) && fresh(conn.closeHook.requestCtx) && fresh(conn.writer)
    {
      var pipeWriter := new Closable();
      var requestCtx := new Context.WithCancel(ctx);
      var release := idle.AddStream(keepSession);
      var finish := new Finish(requestCtx, release);
      conn := new HttpConn(pipeWriter, finish);
    }

    /** The calls a health check defers: put the next one off, then release the handle. */
    method EndCheck(release: Release)
      requires Valid() && release.manager == idle && release in idle.live && !release.done && !release.keepSession
      modifies release, idle, healthCheck, Timers(healthCheck)
      modifies tracker, tracker.derivedContext, tracker.conns, tracker.RawConns()
      ensures Valid() && idle.keep == old(idle.keep)
      ensures idle.streamCount == old(idle.streamCount) - 1 && idle.live == old(idle.live) - {release}
      ensures idle.streamCount > 0 || idle.keep ==> tracker.Untouched()
      ensures !(idle.streamCount > 0 || idle.keep) ==> tracker.ClosedSince(old(tracker.Value()))
      ensures healthCheck != null ==>
                && healthCheck.Value() == HealthCheck.PostponeSection(old(healthCheck.Value()))
                && TimerKept(healthCheck, old(Timers(healthCheck)))
    {
      HealthCheckScheduler.Postpone(healthCheck);
      release.Run();
    }

    /** A health check counts as a stream while it runs, and puts the next one off. */
    method CheckHealth()
      requires Valid()
      modifies idle, healthCheck, Timers(healthCheck)
      modifies tracker, tracker.derivedContext, tracker.conns, tracker.RawConns()
      ensures Valid() && idle.keep == old(idle.keep)
      ensures idle.streamCount == old(idle.streamCount) && idle.live == old(idle.live)
      ensures idle.streamCount > 0 || idle.keep ==> tracker.Untouched()
      ensures !(idle.streamCount > 0 || idle.keep) ==> tracker.ClosedSince(old(tracker.Value()))
      ensures healthCheck != null ==>
                && healthCheck.Value() == HealthCheck.PostponeSection(old(healthCheck.Value()))
                && TimerKept(healthCheck, old(Timers(healthCheck)))
    {
      var release := idle.AddStream(false);
      assert Valid() && tracker.Untouched() && tracker.Value() == old(tracker.Value());
      EndCheck(release);
      assert idle.live == old(idle.live);
    }

    /** The timer's callback: with the client live and started it leaves the timer armed, canceled it stops. */
    method TimerFires()
      requires Valid() && healthCheck != null
      modifies idle, healthCheck, Timers(healthCheck)
      modifies tracker, tracker.derivedContext, tracker.conns, tracker.RawConns()
      ensures Valid()
      ensures !old(healthCheck.started) ==>
                unchanged(healthCheck, old(Timers(healthCheck)), idle) && tracker.Untouched()
      ensures old(healthCheck.started) ==>
                healthCheck.Value() == if ctx.err then HealthCheck.Scheduler(false, HealthCheck.Idle)
                                       else HealthCheck.Scheduler(true, HealthCheck.Armed)
    {
      if !healthCheck.started {
        return;
      }
      CheckHealth();
      if ctx.err {
        HealthCheckScheduler.Stop(healthCheck);
        return;
      }
      HealthCheckScheduler.Postpone(healthCheck);
    }
  }
}
