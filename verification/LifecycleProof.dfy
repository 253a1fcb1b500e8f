/** Every step of the lifecycle keeps its invariant. */
module LifecycleProof {
  import opened Basics
  import opened Lifecycle

  lemma BeginKeepsThread(s: State, a: Action, t: Id)
    requires ThreadsOk(s) && ConnsOk(s) && DialStep(s, a).Some? && (a.BeginDial? || a.DialFails? || a.DialYields?)
    requires t in DialStep(s, a).value.threads
    ensures ThreadOk(DialStep(s, a).value, t, DialStep(s, a).value.threads[t])
  {
  }

  lemma CheckKeepsOwnThread(s: State, a: Action, t: Id)
    requires ThreadsOk(s) && ContextsOk(s) && ConnsOk(s) && DialStep(s, a).Some? && a.TrackCheck?
    requires t == a.t
    requires t in DialStep(s, a).value.threads
    ensures ThreadOk(DialStep(s, a).value, t, DialStep(s, a).value.threads[t])
  {
  }

  /** What a thread relies on besides the tracker's lock. */
  lemma ThreadOkFrame(s: State, s': State, t: Id, th: Thread)
    requires ThreadOk(s, t, th) && !th.Checked?
    requires s'.tracker == s.tracker && s'.conn == s.conn
    requires s'.idleLock == s.idleLock && s'.streamCount == s.streamCount
    ensures ThreadOk(s', t, th)
  {
  }

  lemma CheckKeepsOtherThread(s: State, a: Action, t: Id)
    requires ThreadsOk(s) && LocksOk(s) && DialStep(s, a).Some? && a.TrackCheck? && t != a.t
    requires t in DialStep(s, a).value.threads
    ensures ThreadOk(DialStep(s, a).value, t, DialStep(s, a).value.threads[t])
  {
    var s' := DialStep(s, a).value;
    assert t in s.threads && s'.threads[t] == s.threads[t];
    assert !s.threads[t].Checked?;
    ThreadOkFrame(s, s', t, s.threads[t]);
  }

  lemma InsertKeepsThread(s: State, a: Action, t: Id)
    requires Inv(s) && DialStep(s, a).Some? && a.TrackInsert?
    requires t in DialStep(s, a).value.threads
    ensures ThreadOk(DialStep(s, a).value, t, DialStep(s, a).value.threads[t])
  {
  }

  lemma RejectKeepsThread(s: State, a: Action, t: Id)
    requires ThreadsOk(s) && HandedInOnce(s) && DialStep(s, a).Some? && a.RejectClose?
    requires t in DialStep(s, a).value.threads
    ensures ThreadOk(DialStep(s, a).value, t, DialStep(s, a).value.threads[t])
  {
  }

  lemma DialKeepsThreads(s: State, a: Action)
    requires Inv(s) && DialStep(s, a).Some?
    ensures ThreadsOk(DialStep(s, a).value)
  {
    forall t | t in DialStep(s, a).value.threads
      ensures ThreadOk(DialStep(s, a).value, t, DialStep(s, a).value.threads[t])
    {
      if a.BeginDial? || a.DialFails? || a.DialYields? {
        BeginKeepsThread(s, a, t);
      } else if a.RejectClose? {
        RejectKeepsThread(s, a, t);
      } else if a.TrackCheck? {
        if t == a.t {
          CheckKeepsOwnThread(s, a, t);
        } else {
          CheckKeepsOtherThread(s, a, t);
        }
      } else {
        InsertKeepsThread(s, a, t);
      }
    }
  }

  lemma DialKeepsConns(s: State, a: Action)
    requires ConnsOk(s) && ThreadsOk(s) && DialStep(s, a).Some?
    ensures ConnsOk(DialStep(s, a).value)
  {
  }

  lemma DialKeepsContexts(s: State, a: Action)
    requires ContextsOk(s) && ThreadsOk(s) && ConnsOk(s) && DialStep(s, a).Some?
    ensures ContextsOk(DialStep(s, a).value)
  {
  }

  lemma DialKeepsLocks(s: State, a: Action)
    requires LocksOk(s) && ThreadsOk(s) && DialStep(s, a).Some?
    ensures LocksOk(DialStep(s, a).value)
  {
  }

  lemma DialKeepsCount(s: State, a: Action)
    requires CountOk(s) && DialStep(s, a).Some?
    ensures CountOk(DialStep(s, a).value)
  {
  }

  lemma NotHandedInYet(s: State, c: Id)
    requires ThreadsOk(s) && c !in s.conn
    ensures forall t | t in s.threads :: HandedIn(s.threads[t]) != Some(c)
  {
    forall t | t in s.threads
      ensures HandedIn(s.threads[t]) != Some(c)
    {
      assert ThreadOk(s, t, s.threads[t]);
    }
  }

  lemma DialKeepsHandedIn(s: State, a: Action)
    requires HandedInOnce(s) && ThreadsOk(s) && DialStep(s, a).Some?
    ensures HandedInOnce(DialStep(s, a).value)
  {
    if a.DialYields? {
      NotHandedInYet(s, a.c);
    }
  }

  lemma SwapKeepsThread(s: State, a: Action, t: Id)
    requires ThreadsOk(s) && SelfStep(s, a).Some? && a.SelfCloseBegin?
    requires t in SelfStep(s, a).value.threads
    ensures ThreadOk(SelfStep(s, a).value, t, SelfStep(s, a).value.threads[t])
  {
  }

  lemma UntrackKeepsThread(s: State, a: Action, t: Id)
    requires ThreadsOk(s) && SelfStep(s, a).Some? && a.SelfUntrack?
    requires t in SelfStep(s, a).value.threads
    ensures ThreadOk(SelfStep(s, a).value, t, SelfStep(s, a).value.threads[t])
  {
  }

  lemma SelfRawKeepsThread(s: State, a: Action, t: Id)
    requires ThreadsOk(s) && SelfStep(s, a).Some? && a.SelfRawClose?
    requires t in SelfStep(s, a).value.threads
    ensures ThreadOk(SelfStep(s, a).value, t, SelfStep(s, a).value.threads[t])
  {
  }

  lemma SelfKeepsThreads(s: State, a: Action)
    requires Inv(s) && SelfStep(s, a).Some?
    ensures ThreadsOk(SelfStep(s, a).value)
  {
    forall t | t in SelfStep(s, a).value.threads
      ensures ThreadOk(SelfStep(s, a).value, t, SelfStep(s, a).value.threads[t])
    {
      if a.SelfCloseBegin? {
        SwapKeepsThread(s, a, t);
      } else if a.SelfUntrack? {
        UntrackKeepsThread(s, a, t);
      } else {
        SelfRawKeepsThread(s, a, t);
      }
    }
  }

  lemma SelfKeepsConns(s: State, a: Action)
    requires ThreadsOk(s) && ConnsOk(s) && ContextsOk(s) && SelfStep(s, a).Some?
    ensures ConnsOk(SelfStep(s, a).value) && ContextsOk(SelfStep(s, a).value)
  {
  }

  lemma SelfKeepsLocks(s: State, a: Action)
    requires LocksOk(s) && CountOk(s) && SelfStep(s, a).Some?
    ensures LocksOk(SelfStep(s, a).value) && CountOk(SelfStep(s, a).value)
  {
  }

  lemma SelfKeepsHandedIn(s: State, a: Action)
    requires HandedInOnce(s) && SelfStep(s, a).Some?
    ensures HandedInOnce(SelfStep(s, a).value)
  {
  }

  lemma ForceCloseKeepsThread(s: State, a: Action, t: Id)
    requires Inv(s) && CloserStep(s, a).Some? && a.ForceClose?
    requires t in CloserStep(s, a).value.threads
    ensures ThreadOk(CloserStep(s, a).value, t, CloserStep(s, a).value.threads[t])
  {
  }

  lemma StoreKeepsThread(s: State, a: Action, t: Id)
    requires ThreadsOk(s) && CloserStep(s, a).Some? && a.CloserStore?
    requires t in CloserStep(s, a).value.threads
    ensures ThreadOk(CloserStep(s, a).value, t, CloserStep(s, a).value.threads[t])
  {
  }

  lemma CloserRawKeepsThread(s: State, a: Action, t: Id)
    requires ThreadsOk(s) && CloserStep(s, a).Some? && a.CloserRaw?
    requires t in CloserStep(s, a).value.threads
    ensures ThreadOk(CloserStep(s, a).value, t, CloserStep(s, a).value.threads[t])
  {
  }

  lemma DoneKeepsThread(s: State, a: Action, t: Id)
    requires ThreadsOk(s) && CloserStep(s, a).Some? && a.CloserDone?
    requires t in CloserStep(s, a).value.threads
    ensures ThreadOk(CloserStep(s, a).value, t, CloserStep(s, a).value.threads[t])
  {
  }

  lemma CloserKeepsThreads(s: State, a: Action)
    requires Inv(s) && CloserStep(s, a).Some?
    ensures ThreadsOk(CloserStep(s, a).value)
  {
    forall t | t in CloserStep(s, a).value.threads
      ensures ThreadOk(CloserStep(s, a).value, t, CloserStep(s, a).value.threads[t])
    {
      if a.ForceClose? {
        ForceCloseKeepsThread(s, a, t);
      } else if a.CloserStore? {
        StoreKeepsThread(s, a, t);
      } else if a.CloserRaw? {
        CloserRawKeepsThread(s, a, t);
      } else {
        DoneKeepsThread(s, a, t);
      }
    }
  }

  lemma CloserKeepsConns(s: State, a: Action)
    requires ThreadsOk(s) && ConnsOk(s) && ContextsOk(s) && CloserStep(s, a).Some?
    ensures ConnsOk(CloserStep(s, a).value) && ContextsOk(CloserStep(s, a).value)
  {
  }

  lemma CloserKeepsLocks(s: State, a: Action)
    requires LocksOk(s) && CountOk(s) && CloserStep(s, a).Some?
    ensures LocksOk(CloserStep(s, a).value) && CountOk(CloserStep(s, a).value)
  {
  }

  lemma CloserKeepsHandedIn(s: State, a: Action)
    requires HandedInOnce(s) && CloserStep(s, a).Some?
    ensures HandedInOnce(CloserStep(s, a).value)
  {
  }

  lemma CancelKeepsThreads(s: State, a: Action)
    requires ThreadsOk(s) && CancelStep(s, a).Some?
    ensures ThreadsOk(CancelStep(s, a).value)
  {
  }

  lemma CancelKeepsConns(s: State, a: Action)
    requires ConnsOk(s) && ContextsOk(s) && CancelStep(s, a).Some?
    ensures ConnsOk(CancelStep(s, a).value) && ContextsOk(CancelStep(s, a).value)
  {
  }

  lemma CancelKeepsLocks(s: State, a: Action)
    requires LocksOk(s) && CountOk(s) && CancelStep(s, a).Some?
    ensures LocksOk(CancelStep(s, a).value) && CountOk(CancelStep(s, a).value)
  {
  }

  lemma CancelKeepsHandedIn(s: State, a: Action)
    requires HandedInOnce(s) && CancelStep(s, a).Some?
    ensures HandedInOnce(CancelStep(s, a).value)
  {
  }

  /** Somebody still cares for c, or did and has now closed it or had it tracked. */
  lemma DialNoLeak(s: State, a: Action, c: Id)
    requires (c in s.conn ==> NotLeaked(s, c)) && DialStep(s, a).Some? && c in DialStep(s, a).value.conn
    ensures NotLeaked(DialStep(s, a).value, c)
  {
    var s' := DialStep(s, a).value;
    if c !in s.conn {
      assert CaredBy(s', a.t, c);
    } else if !s.conn[c].rawClosed && c !in s.tracker.conns {
      var t :| CaredBy(s, t, c);
      assert CaredBy(s', t, c) || s'.conn[c].rawClosed || c in s'.tracker.conns;
    }
  }

  lemma SelfNoLeak(s: State, a: Action, c: Id)
    requires SelfStep(s, a).Some? && c in s.conn && NotLeaked(s, c)
    ensures NotLeaked(SelfStep(s, a).value, c)
  {
    var s' := SelfStep(s, a).value;
    if !s.conn[c].rawClosed && c !in s.tracker.conns {
      var t :| CaredBy(s, t, c);
      assert CaredBy(s', t, c) || s'.conn[c].rawClosed;
    } else if c in s.tracker.conns && c !in s'.tracker.conns {
      assert CaredBy(s', a.t, c);
    }
  }

  lemma CloserNoLeak(s: State, a: Action, c: Id)
    requires CloserStep(s, a).Some? && c in s.conn && NotLeaked(s, c)
    ensures NotLeaked(CloserStep(s, a).value, c)
  {
    var s' := CloserStep(s, a).value;
    if !s.conn[c].rawClosed && c !in s.tracker.conns {
      var t :| CaredBy(s, t, c);
      assert CaredBy(s', t, c) || s'.conn[c].rawClosed;
    } else if c in s.tracker.conns && c !in s'.tracker.conns {
      assert CaredBy(s', a.t, c);
    }
  }

  lemma CancelNoLeak(s: State, a: Action, c: Id)
    requires CancelStep(s, a).Some? && c in s.conn && NotLeaked(s, c)
    ensures NotLeaked(CancelStep(s, a).value, c)
  {
    var s' := CancelStep(s, a).value;
    if !s.conn[c].rawClosed && c !in s.tracker.conns {
      var t :| CaredBy(s, t, c);
      assert CaredBy(s', t, c);
    }
  }

  lemma IdleNoLeak(s: State, a: Action, c: Id)
    requires IdleStep(s, a).Some? && c in s.conn && NotLeaked(s, c)
    ensures NotLeaked(IdleStep(s, a).value, c)
  {
    var s' := IdleStep(s, a).value;
    if !s.conn[c].rawClosed && c !in s.tracker.conns {
      var t :| CaredBy(s, t, c);
      assert CaredBy(s', t, c);
    }
  }

  lemma IdleKeepsCount(s: State, a: Action)
    requires Inv(s) && IdleStep(s, a).Some?
    ensures CountOk(IdleStep(s, a).value)
  {
    var s' := IdleStep(s, a).value;
    if a.AddStream? {
      assert LiveHandles(s') == LiveHandles(s) + {a.h};
    } else if a.Release? {
      assert LiveHandles(s') == LiveHandles(s) - {a.h};
    } else {
      assert LiveHandles(s') == LiveHandles(s);
    }
  }

  lemma ReleaseKeepsThread(s: State, a: Action, t: Id)
    requires ThreadsOk(s) && LocksOk(s) && IdleStep(s, a).Some? && 0 <= IdleStep(s, a).value.streamCount
    requires a.Release?
    requires t in IdleStep(s, a).value.threads
    ensures ThreadOk(IdleStep(s, a).value, t, IdleStep(s, a).value.threads[t])
  {
  }

  lemma CloseIdleKeepsThread(s: State, a: Action, t: Id)
    requires ThreadsOk(s) && LocksOk(s) && IdleStep(s, a).Some? && 0 <= IdleStep(s, a).value.streamCount
    requires a.CloseIdle?
    requires t in IdleStep(s, a).value.threads
    ensures ThreadOk(IdleStep(s, a).value, t, IdleStep(s, a).value.threads[t])
  {
  }

  lemma IdleKeepsThread(s: State, a: Action, t: Id)
    requires ThreadsOk(s) && LocksOk(s) && IdleStep(s, a).Some? && 0 <= IdleStep(s, a).value.streamCount
    requires a.AddStream? || a.SetKeep?
    requires t in IdleStep(s, a).value.threads
    ensures ThreadOk(IdleStep(s, a).value, t, IdleStep(s, a).value.threads[t])
  {
  }

  lemma IdleKeepsThreads(s: State, a: Action)
    requires Inv(s) && IdleStep(s, a).Some?
    ensures ThreadsOk(IdleStep(s, a).value)
  {
    IdleKeepsCount(s, a);
    forall t | t in IdleStep(s, a).value.threads
      ensures ThreadOk(IdleStep(s, a).value, t, IdleStep(s, a).value.threads[t])
    {
      if a.Release? {
        ReleaseKeepsThread(s, a, t);
      } else if a.CloseIdle? {
        CloseIdleKeepsThread(s, a, t);
      } else {
        IdleKeepsThread(s, a, t);
      }
    }
  }

  lemma IdleKeepsRest(s: State, a: Action)
    requires HandedInOnce(s) && ContextsOk(s) && ConnsOk(s) && LocksOk(s) && IdleStep(s, a).Some?
    ensures var s' := IdleStep(s, a).value;
            HandedInOnce(s') && ContextsOk(s') && ConnsOk(s') && LocksOk(s')
  {
  }

  /** The invariant holds at the start. */
  lemma InitOk()
    ensures Inv(Init())
  {
    assert LiveHandles(Init()) == {};
  }

  /** Every step keeps the invariant. */
  lemma StepKeeps(s: State, a: Action)
    requires Inv(s) && Next(s, a).Some?
    ensures Inv(Next(s, a).value)
  {
    if DialStep(s, a).Some? {
      DialKeepsThreads(s, a);
      DialKeepsConns(s, a);
      DialKeepsContexts(s, a);
      DialKeepsLocks(s, a);
      DialKeepsCount(s, a);
      DialKeepsHandedIn(s, a);
      forall c | c in DialStep(s, a).value.conn
        ensures NotLeaked(DialStep(s, a).value, c)
      {
        DialNoLeak(s, a, c);
      }
    } else if SelfStep(s, a).Some? {
      SelfKeepsThreads(s, a);
      SelfKeepsConns(s, a);
      SelfKeepsLocks(s, a);
      SelfKeepsHandedIn(s, a);
      forall c | c in SelfStep(s, a).value.conn
        ensures NotLeaked(SelfStep(s, a).value, c)
      {
        SelfNoLeak(s, a, c);
      }
    } else if CloserStep(s, a).Some? {
      CloserKeepsThreads(s, a);
      CloserKeepsConns(s, a);
      CloserKeepsLocks(s, a);
      CloserKeepsHandedIn(s, a);
      forall c | c in CloserStep(s, a).value.conn
        ensures NotLeaked(CloserStep(s, a).value, c)
      {
        CloserNoLeak(s, a, c);
      }
    } else if CancelStep(s, a).Some? {
      CancelKeepsThreads(s, a);
      CancelKeepsConns(s, a);
      CancelKeepsLocks(s, a);
      CancelKeepsHandedIn(s, a);
      forall c | c in CancelStep(s, a).value.conn
        ensures NotLeaked(CancelStep(s, a).value, c)
      {
        CancelNoLeak(s, a, c);
      }
    } else {
      IdleKeepsCount(s, a);
      IdleKeepsThreads(s, a);
      IdleKeepsRest(s, a);
      forall c | c in IdleStep(s, a).value.conn
        ensures NotLeaked(IdleStep(s, a).value, c)
      {
        IdleNoLeak(s, a, c);
      }
    }
  }
}
