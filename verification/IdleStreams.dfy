/** The objects of idle.go: the stream counter and the run-once releases it hands out. */
module IdleStreams {
  import Lifecycle
  import opened Connections

  /** The release of one AddStream call, wrapped in sync.OnceFunc. */
  class Release {
    const manager: IdleManager
    const keepSession: bool
    var done: bool

    constructor (manager: IdleManager, keepSession: bool)
      ensures this.manager == manager && this.keepSession == keepSession && !done
    {
      this.manager := manager;
      this.keepSession := keepSession;
      done := false;
    }

    /** Only the first run counts; the one that reaches zero with neither keep flag set closes every connection. */
    method Run()
      requires manager.Valid() && (!done ==> this in manager.live)
      modifies this, manager
      modifies manager.tracker, manager.tracker.derivedContext, manager.tracker.conns, manager.tracker.RawConns()
      ensures manager.Valid() && done && manager.tracker.ContextsGrow()
      ensures old(done) ==> unchanged(manager) && manager.tracker.Untouched()
      ensures !old(done) ==>
                && manager.keep == old(manager.keep)
                && manager.live == old(manager.live) - {this}
                && manager.streamCount == old(manager.streamCount) - 1
                && (manager.streamCount > 0 || manager.keep || keepSession ==> manager.tracker.Untouched())
                && (!(manager.streamCount > 0 || manager.keep || keepSession) ==>
                      manager.tracker.ClosedSince(old(manager.tracker.Value())))
    {
      if !done {
        done := true;
        manager.ReleaseStream(this);
      }
    }
  }

  class IdleManager {
    const tracker: ConnTracker
    var keep: bool
    var streamCount: int
    /** The releases handed out and not yet run. */
    ghost var live: set<Release>

    ghost predicate Valid()
      reads this, tracker, tracker.parent, tracker.contexts
    {
      tracker.Valid() && streamCount == |live|
    }

    constructor (tracker: ConnTracker)
      requires tracker.Valid()
      ensures Valid() && this.tracker == tracker && !keep && streamCount == 0 && live == {}
    {
      this.tracker := tracker;
      keep, streamCount, live := false, 0, {};
    }

    method SetKeep(keep: bool)
      requires Valid()
      modifies this`keep
      ensures Valid() && this.keep == keep
    {
      this.keep := keep;
    }

    method AddStream(keepSession: bool) returns (release: Release)
      requires Valid()
      modifies this`streamCount, this`live
      ensures Valid() && streamCount == old(streamCount) + 1
      ensures fresh(release) && !release.done && release.manager == this && release.keepSession == keepSession
      ensures live == old(live) + {release}
    {
      streamCount := streamCount + 1;
      release := new Release(this, keepSession);
      live := live + {release};
    }

    method ReleaseStream(release: Release)
      requires Valid() && release in live
      modifies this`streamCount, this`live, tracker, tracker.derivedContext, tracker.conns, tracker.RawConns()
      ensures Valid() && tracker.ContextsGrow()
      ensures streamCount == old(streamCount) - 1 && live == old(live) - {release}
      ensures streamCount > 0 || keep || release.keepSession ==> tracker.Untouched()
      ensures !(streamCount > 0 || keep || release.keepSession) ==> tracker.ClosedSince(old(tracker.Value()))
    {
      streamCount := streamCount - 1;
      live := live - {release};
      if streamCount > 0 || keep || release.keepSession {
        return;
      }
      CloseIdleLocked();
    }

    method CloseIdle()
      requires Valid()
      modifies tracker, tracker.derivedContext, tracker.conns, tracker.RawConns()
      ensures Valid() && tracker.ContextsGrow()
      ensures streamCount > 0 ==> tracker.Untouched()
      ensures streamCount == 0 ==> tracker.ClosedSince(old(tracker.Value()))
    {
      CloseIdleLocked();
    }

    method CloseIdleLocked()
      requires Valid()
      modifies tracker, tracker.derivedContext, tracker.conns, tracker.RawConns()
      ensures Valid() && tracker.ContextsGrow()
      ensures streamCount > 0 ==> tracker.Untouched()
      ensures streamCount == 0 ==> tracker.ClosedSince(old(tracker.Value()))
    {
      if streamCount > 0 {
        return;
      }
      tracker.Close();
    }
  }
}
