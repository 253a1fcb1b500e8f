/**
 * The objects of close.go. Each method's critical section is a section function of Lifecycle on the
 * object's abstract value; the rest of the method says what one call does when nothing interleaves.
 */
module Connections {
  import Lifecycle

  /** A context, as far as this code looks at it: whether Err() is set. */
  class Context {
    var err: bool

    constructor Background()
      ensures !err
    {
      err := false;
    }

    constructor WithCancel(parent: Context)
      ensures err == parent.err
    {
      err := parent.err;
    }

    method Cancel()
      modifies this
      ensures err
    {
      err := true;
    }
  }

  /** The connection underneath a tracked one. */
  class RawConn {
    var closed: bool

    constructor ()
      ensures !closed
    {
      closed := false;
    }

    method Close()
      modifies this
      ensures closed
    {
      closed := true;
    }
  }

  class TrackedConn {
    const conn: RawConn
    const tracker: ConnTracker
    var closed: bool

    constructor (conn: RawConn, tracker: ConnTracker)
      ensures this.conn == conn && this.tracker == tracker && !closed
    {
      this.conn := conn;
      this.tracker := tracker;
      closed := false;
    }

    /** False is net.ErrClosed: some other close was first, and this call does nothing. */
    method Close() returns (ok: bool)
      requires tracker.Valid()
      modifies this, tracker`conns, conn
      ensures tracker.Valid() && closed
      ensures ok == !old(closed)
      ensures ok ==> conn.closed && tracker.Value() == Lifecycle.UntrackSection(old(tracker.Value()), this)
      ensures !ok ==> unchanged(tracker) && unchanged(conn)
    {
      var was := closed;
      closed := true;
      if was {
        return false;
      }
      tracker.Untrack(this);
      conn.Close();
      ok := true;
    }

    method CloseFromTracker()
      modifies this, conn
      ensures closed && conn.closed
    {
      closed := true;
      conn.Close();
    }
  }

  class ConnTracker {
    const parent: Context
    var conns: set<TrackedConn>
    var derivedContext: Context
    /** Every context that was ever the derived one, the current one last. */
    ghost var contexts: seq<Context>

    /** Only the current context may be live, and it is canceled only if its parent is. */
    ghost predicate Valid()
      reads this, parent, contexts
    {
      && contexts != [] && contexts[|contexts| - 1] == derivedContext
      && parent !in contexts && derivedContext !in contexts[..|contexts| - 1]
      && (forall g | 0 <= g < |contexts| - 1 :: contexts[g].err)
      && (derivedContext.err ==> parent.err)
    }

    ghost function Value(): (k: Lifecycle.Tracker<TrackedConn>)
      requires contexts != []
      reads this, parent, contexts
    {
      var canceled := set g: nat | g < |contexts| && contexts[g].err;
      Lifecycle.Tracker(parent.err, |contexts| - 1, canceled, conns)
    }

    ghost function RawConns(): set<RawConn>
      reads this
    {
      set c | c in conns :: c.conn
    }

    /** What a close may touch. */
    ghost function Footprint(): set<object>
      reads this
    {
      {this, derivedContext} + conns + RawConns()
    }

    /** The tracker has started over, and every connection it held before has been closed. */
    ghost predicate ClosedSince(before: Lifecycle.Tracker<TrackedConn>)
      requires contexts != []
      reads this, parent, contexts, before.conns, set c | c in before.conns :: c.conn
    {
      && Value() == Lifecycle.CloseSection(before)
      && forall c | c in before.conns :: c.closed && c.conn.closed
    }

    /** Nothing that a close touches has changed. */
    twostate predicate Untouched()
      reads this, derivedContext, conns, set c | c in conns :: c.conn
    {
      && unchanged(this) && unchanged(derivedContext)
      && forall c | c in conns :: unchanged(c) && unchanged(c.conn)
    }

    /** Derived contexts are never taken from elsewhere. */
    twostate predicate ContextsGrow()
      reads this
    {
      forall x | x in contexts :: x in old(contexts) || fresh(x)
    }

    constructor (ctx: Context)
      ensures Valid() && parent == ctx && fresh(derivedContext)
      ensures Value() == Lifecycle.NewTracker(ctx.err)
    {
      parent := ctx;
      conns := {};
      derivedContext := new Context.WithCancel(ctx);
      contexts := [derivedContext];
    }

    method BeginDial() returns (dial: TrackedDial)
      requires Valid()
      ensures fresh(dial) && dial.tracker == this && dial.derivedContext == derivedContext && dial.Valid()
    {
      dial := new TrackedDial(this, derivedContext);
    }

    method Untrack(conn: TrackedConn)
      requires Valid()
      modifies this`conns
      ensures Valid() && Value() == Lifecycle.UntrackSection(old(Value()), conn)
    {
      conns := conns - {conn};
    }

    /** The critical section of Close, returning its snapshot. */
    method TakeAll() returns (taken: set<TrackedConn>)
      requires Valid()
      modifies this, derivedContext
      ensures Valid() && fresh(derivedContext) && contexts == old(contexts) + [derivedContext]
      ensures Value() == Lifecycle.CloseSection(old(Value()))
      ensures taken == old(conns)
    {
      derivedContext.Cancel();
      derivedContext := new Context.WithCancel(parent);
      contexts := contexts + [derivedContext];
      taken := conns;
      conns := {};
    }

    method Close()
      requires Valid()
      modifies this, derivedContext, conns, RawConns()
      ensures Valid() && fresh(derivedContext) && contexts == old(contexts) + [derivedContext]
      ensures ClosedSince(old(Value())) && ContextsGrow()
    {
      var taken := TakeAll();
      var todo := taken;
      while todo != {}
        invariant todo <= taken
        invariant Valid() && fresh(derivedContext) && contexts == old(contexts) + [derivedContext]
        invariant Value() == Lifecycle.CloseSection(old(Value()))
        invariant forall c | c in taken - todo :: c.closed && c.conn.closed
        decreases todo
      {
        var conn :| conn in todo;
        conn.CloseFromTracker();
        todo := todo - {conn};
      }
    }
  }

  class TrackedDial {
    const tracker: ConnTracker
    const derivedContext: Context

    /** The context was the tracker's when the dial began. */
    ghost predicate Valid()
      reads tracker
    {
      derivedContext in tracker.contexts
    }

    constructor (tracker: ConnTracker, derivedContext: Context)
      ensures this.tracker == tracker && this.derivedContext == derivedContext
    {
      this.tracker := tracker;
      this.derivedContext := derivedContext;
    }

    /**
     * A connection is only ever accepted under the tracker's current context; a refused one is
     * closed on the spot.
     */
    method Track(conn: RawConn) returns (tracked: TrackedConn?)
      requires Valid() && tracker.Valid()
      modifies tracker`conns, conn
      ensures tracker.Valid()
      ensures tracked == null <==> derivedContext.err
      ensures tracked == null ==> conn.closed && tracker.Value() == old(tracker.Value())
      ensures tracked != null ==>
                && derivedContext == tracker.derivedContext
                && fresh(tracked) && tracked.conn == conn && tracked.tracker == tracker && !tracked.closed
                && conn.closed == old(conn.closed)
                && tracker.Value() == Lifecycle.InsertSection(old(tracker.Value()), tracked)
    {
      if derivedContext.err {
        conn.Close();
        return null;
      }
      tracked := new TrackedConn(conn, tracker);
      tracker.conns := tracker.conns + {tracked};
    }
  }
}
