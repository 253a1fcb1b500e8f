/** The objects one stream is made of: httpConn of protocol.go and the finish closure openStream gives it. */
module HttpConns {
  import opened Connections
  import opened IdleStreams
  import Lifecycle
  import Streams

  /** A pipe writer or a response body. */
  class Closable {
    var closed: bool

    constructor ()
      ensures !closed
    {
      closed := false;
    }

    method Close()
      modifies this
      ensures closed
    {
      closed := true;
    }
  }

  /** sync.OnceFunc around cancel() and release(). */
  class Finish {
    const requestCtx: Context
    const release: Release
    var done: bool

    ghost predicate Valid()
      reads this, release, release.manager, release.manager.tracker
      reads release.manager.tracker.parent, release.manager.tracker.contexts
    {
      var tracker := release.manager.tracker;
      && release.manager.Valid()
      && requestCtx != tracker.parent && requestCtx !in tracker.contexts && requestCtx != tracker.derivedContext
      && (release in release.manager.live <==> !release.done)
      && done == release.done
    }

    ghost function Footprint(): set<object>
      reads this, release.manager, release.manager.tracker
    {
      {this, requestCtx, release, release.manager} + release.manager.tracker.Footprint()
    }

    constructor (requestCtx: Context, release: Release)
      ensures this.requestCtx == requestCtx && this.release == release && !done
    {
      this.requestCtx := requestCtx;
      this.release := release;
      done := false;
    }

    /** However often it runs, the request is canceled and the handle released once. */
    method Run()
      requires Valid()
      modifies Footprint()
      ensures Valid() && done
      ensures old(done) ==> unchanged(this, requestCtx, release, release.manager) && release.manager.tracker.Untouched()
      ensures !old(done) ==> requestCtx.err
      ensures release.manager.live == old(release.manager.live) - {release}
      ensures release.manager.streamCount == old(release.manager.streamCount) - if old(done) then 0 else 1
      ensures release.manager.keep == old(release.manager.keep)
      ensures old(done) || release.manager.streamCount > 0 || release.manager.keep || release.keepSession ==>
                release.manager.tracker.Untouched()
      ensures !(old(done) || release.manager.streamCount > 0 || release.manager.keep || release.keepSession) ==>
                release.manager.tracker.ClosedSince(old(release.manager.tracker.Value()))
    {
      if done {
        return;
      }
      done := true;
      requestCtx.Cancel();
      release.Run();
    }
  }

  class HttpConn {
    const writer: Closable
    const closeHook: Finish?
    var created: bool
    var closed: bool
    var body: Closable?
    var createErr: bool

    ghost predicate Valid()
      reads this
    {
      && (created ==> createErr == (body == null))
      && (!created ==> body == null && !createErr)
    }

    ghost function Value(): Streams.Guarded
      reads this
    {
      Streams.Guarded(closed, body != null, createErr)
    }

    ghost predicate HookValid()
      reads *
    {
      closeHook != null ==> closeHook.Valid()
    }

    ghost function HookFootprint(): set<object>
      reads *
    {
      if closeHook == null then {} else closeHook.Footprint()
    }

    constructor (writer: Closable, closeHook: Finish?)
      ensures Valid() && this.writer == writer && this.closeHook == closeHook && !created
      ensures Value() == Streams.NewStream().guarded
    {
      this.writer := writer;
      this.closeHook := closeHook;
      created, closed, body, createErr := false, false, null, false;
    }

    /** Installs the body, or, if the conn was closed before it arrived, closes it. */
    method SetUp(arrived: Closable?, err: bool)
      requires Valid() && !created && err == (arrived == null)
      modifies this, arrived
      ensures Valid() && created
      ensures Value() == Streams.SetUpSection(old(Value()), !err)
      ensures !closed ==> body == arrived && (arrived != null ==> unchanged(arrived))
      ensures closed ==> body == null && (arrived != null ==> arrived.closed)
    {
      var wasClosed := closed;
      if !wasClosed {
        body := arrived;
        createErr := err;
      } else {
        createErr := true;
      }
      created := true;
      if wasClosed && arrived != null {
        arrived.Close();
      }
    }

    /** Returns whether createErr is set; callers block until created is closed. */
    method WaitCreated() returns (err: bool)
      requires Valid() && created
      ensures !err <==> body != null
    {
      err := createErr;
    }

    /** A first close that drops the last stream, with neither keep flag set, leaves no tracked connection open. */
    static ghost predicate KeptOrClosed(release: Release, again: bool, before: Lifecycle.Tracker<TrackedConn>)
      requires release.manager.tracker.contexts != []
      reads release, release.manager, release.manager.tracker, release.manager.tracker.parent
      reads release.manager.tracker.contexts, before.conns, set c | c in before.conns :: c.conn
    {
      again || release.manager.streamCount > 0 || release.manager.keep || release.keepSession
      || release.manager.tracker.ClosedSince(before)
    }

    /** Close after its hook: the critical section, and closing what it found. */
    method CloseEnds()
      requires Valid()
      modifies this`closed, writer, body
      ensures Valid() && Value() == Streams.CloseSection(old(Value()))
      ensures body == old(body) && created == old(created)
      ensures writer.closed && (body != null ==> body.closed)
    {
      closed := true;
      writer.Close();
      if body != null {
        body.Close();
      }
    }

    method RunHook()
      requires HookValid()
      modifies HookFootprint()
      ensures HookValid()
      ensures closeHook != null ==>
                && closeHook.done && closeHook.release.done && closeHook.release !in closeHook.release.manager.live
                && (!old(closeHook.done) ==> closeHook.requestCtx.err)
                && KeptOrClosed(closeHook.release, old(closeHook.done), old(closeHook.release.manager.tracker.Value()))
    {
      if closeHook != null {
        closeHook.Run();
      }
    }

    /** Runs the hook, then closes the writer and whatever body has arrived. */
    method Close()
      requires Valid() && HookValid()
      modifies this`closed, writer, body, HookFootprint()
      ensures Valid() && HookValid()
      ensures Value() == Streams.CloseSection(old(Value()))
      ensures body == old(body) && created == old(created)
      ensures writer.closed && (body != null ==> body.closed)
      ensures closeHook != null ==>
                && closeHook.done && closeHook.release.done && closeHook.release !in closeHook.release.manager.live
                && (!old(closeHook.done) ==> closeHook.requestCtx.err)
                && KeptOrClosed(closeHook.release, old(closeHook.done), old(closeHook.release.manager.tracker.Value()))
    {
      RunHook();
      CloseEnds();
    }
  }
}
