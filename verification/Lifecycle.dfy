/**
 * The client's connections under every interleaving: close.go, idle.go and the closing paths of
 * client.go as a transition system. Each section under a mutex is one step, each gap between
 * sections a state of the thread that is in it.
 */
module Lifecycle {
  import opened Basics

  type Id = nat

  // ---------------------------------------------------------------- the tracker's sections

  /**
   * The fields of a connTracker. Derived contexts are numbered; gen is the current one. The parent's
   * error is set before the contexts derived from it are canceled one by one.
   */
  datatype Tracker<C(==)> = Tracker(parentErr: bool, gen: nat, canceled: set<nat>, conns: set<C>)

  /** context.WithCancel: a context derived from a canceled parent is born canceled. */
  function Derive(parentErr: bool, gen: nat, canceled: set<nat>): set<nat> {
    if parentErr then canceled + {gen} else canceled
  }

  function NewTracker<C>(parentErr: bool): Tracker<C> {
    Tracker(parentErr, 0, Derive(parentErr, 0, {}), {})
  }

  /** The critical section of connTracker.Close; its snapshot is the old conns. */
  function CloseSection<C>(k: Tracker<C>): Tracker<C> {
    Tracker(k.parentErr, k.gen + 1, Derive(k.parentErr, k.gen + 1, k.canceled + {k.gen}), {})
  }

  function UntrackSection<C>(k: Tracker<C>, c: C): Tracker<C> {
    k.(conns := k.conns - {c})
  }

  function InsertSection<C>(k: Tracker<C>, c: C): Tracker<C> {
    k.(conns := k.conns + {c})
  }

  // ---------------------------------------------------------------- states

  /** A connection: the context its dial captured, whether Track accepted it, its closed flag, and Conn.Close. */
  datatype Conn = Conn(gen: nat, accepted: bool, flag: bool, rawClosed: bool)

  datatype Origin = DirectClose | ClientClose | IdleClose

  datatype Thread =
    | Dialing(gen: nat)                  // BeginDial has captured a context
    | Tracking(gen: nat, c: Id)          // in Track, before the lock
    | Checked(gen: nat, c: Id)           // in Track, the lock held, no error seen
    | Rejected(c: Id)                    // in Track, unlocked, about to close the connection
    | SelfSwapped(c: Id)                 // in the connection's Close, before Untrack
    | SelfUntracked(c: Id)               // before Conn.Close
    | Closing(origin: Origin, todo: set<Id>, current: Option<Id>)  // in connTracker.Close after its section
    | ClientCanceling                    // in Client.Close, inside cancel()
    | ClientCanceled                     // after cancel() returned
    | IdleLocked                         // holding the idle lock, about to force-close

  datatype Handle = Handle(keepSession: bool, released: bool)

  datatype State = State(
    tracker: Tracker<Id>,
    lock: Option<Id>,
    conn: map<Id, Conn>,
    threads: map<Id, Thread>,
    finalized: bool,
    keep: bool,
    streamCount: int,
    handles: map<Id, Handle>,
    idleLock: Option<Id>)

  function Init(): State {
    State(NewTracker(false), None, map[], map[], false, false, 0, map[], None)
  }

  // ---------------------------------------------------------------- steps

  datatype Action =
    | BeginDial(t: Id)
    | DialFails(t: Id)
    | DialYields(t: Id, c: Id)
    | TrackCheck(t: Id)
    | TrackInsert(t: Id)
    | RejectClose(t: Id)
    | SelfCloseBegin(t: Id, c: Id)
    | SelfUntrack(t: Id)
    | SelfRawClose(t: Id)
    | ForceClose(t: Id, origin: Origin)
    | CloserStore(t: Id, c: Id)
    | CloserRaw(t: Id)
    | CloserDone(t: Id)
    | CancelParent
    | DeliverCancel(gen: nat)
    | ClientCloseBegin(t: Id)
    | ClientCancelReturns(t: Id)
    | AddStream(h: Id, keepSession: bool)
    | Release(t: Id, h: Id)
    | CloseIdle(t: Id)
    | SetKeep(value: bool)

  predicate At(s: State, t: Id) {
    t in s.threads
  }

  function Put(s: State, t: Id, th: Thread): State {
    s.(threads := s.threads[t := th])
  }

  function Leave(s: State, t: Id): State {
    s.(threads := s.threads - {t})
  }

  function RawClose(s: State, c: Id): State {
    if c in s.conn then s.(conn := s.conn[c := s.conn[c].(rawClosed := true)]) else s
  }

  function StoreFlag(s: State, c: Id): State {
    if c in s.conn then s.(conn := s.conn[c := s.conn[c].(flag := true)]) else s
  }

  function DialStep(s: State, a: Action): Option<State> {
    match a
    case BeginDial(t) =>
      if At(s, t) || s.lock.Some? then None else Some(Put(s, t, Dialing(s.tracker.gen)))
    case DialFails(t) =>
      if At(s, t) && s.threads[t].Dialing? then Some(Leave(s, t)) else None
    case DialYields(t, c) =>
      if At(s, t) && s.threads[t].Dialing? && c !in s.conn then
        var g := s.threads[t].gen;
        Some(Put(s.(conn := s.conn[c := Conn(g, false, false, false)]), t, Tracking(g, c)))
      else None
    case TrackCheck(t) =>
      if At(s, t) && s.threads[t].Tracking? && s.lock.None? then
        var Tracking(g, c) := s.threads[t];
        if g in s.tracker.canceled then Some(Put(s, t, Rejected(c)))
        else Some(Put(s.(lock := Some(t)), t, Checked(g, c)))
      else None
    case TrackInsert(t) =>
      if At(s, t) && s.threads[t].Checked? && s.threads[t].c in s.conn then
        var c := s.threads[t].c;
        Some(Leave(s, t).(lock := None, tracker := InsertSection(s.tracker, c),
                          conn := s.conn[c := s.conn[c].(accepted := true)]))
      else None
    case RejectClose(t) =>
      if At(s, t) && s.threads[t].Rejected? then Some(Leave(RawClose(s, s.threads[t].c), t)) else None
    case _ => None
  }

  function SelfStep(s: State, a: Action): Option<State> {
    match a
    case SelfCloseBegin(t, c) =>
      if !At(s, t) && c in s.conn && s.conn[c].accepted then
        if s.conn[c].flag then Some(s) else Some(Put(StoreFlag(s, c), t, SelfSwapped(c)))
      else None
    case SelfUntrack(t) =>
      if At(s, t) && s.threads[t].SelfSwapped? && s.lock.None? then
        var c := s.threads[t].c;
        Some(Put(s.(tracker := UntrackSection(s.tracker, c)), t, SelfUntracked(c)))
      else None
    case SelfRawClose(t) =>
      if At(s, t) && s.threads[t].SelfUntracked? then Some(Leave(RawClose(s, s.threads[t].c), t)) else None
    case _ => None
  }

  /** Who may be about to run connTracker.Close: anyone, a client past its cancel, or the idle manager. */
  predicate MayForceClose(s: State, t: Id, origin: Origin) {
    match origin
    case DirectClose => !At(s, t)
    case ClientClose => At(s, t) && s.threads[t].ClientCanceled?
    case IdleClose => At(s, t) && s.threads[t].IdleLocked?
  }

  function CloserStep(s: State, a: Action): Option<State> {
    match a
    case ForceClose(t, origin) =>
      if MayForceClose(s, t, origin) && s.lock.None? then
        Some(Put(s.(tracker := CloseSection(s.tracker), finalized := s.finalized || origin.ClientClose?),
                 t, Closing(origin, s.tracker.conns, None)))
      else None
    case CloserStore(t, c) =>
      if At(s, t) && s.threads[t].Closing? && s.threads[t].current.None? && c in s.threads[t].todo then
        Some(Put(StoreFlag(s, c), t, s.threads[t].(current := Some(c))))
      else None
    case CloserRaw(t) =>
      if At(s, t) && s.threads[t].Closing? && s.threads[t].current.Some? then
        var c := s.threads[t].current.value;
        Some(Put(RawClose(s, c), t, s.threads[t].(todo := s.threads[t].todo - {c}, current := None)))
      else None
    case CloserDone(t) =>
      if At(s, t) && s.threads[t].Closing? && s.threads[t].todo == {} then
        Some(Leave(s, t).(idleLock := if s.threads[t].origin.IdleClose? then None else s.idleLock))
      else None
    case _ => None
  }

  predicate AllCanceled(k: Tracker<Id>) {
    forall g | 0 <= g <= k.gen :: g in k.canceled
  }

  function CancelStep(s: State, a: Action): Option<State> {
    match a
    case CancelParent => Some(s.(tracker := s.tracker.(parentErr := true)))
    case DeliverCancel(g) =>
      if s.tracker.parentErr && g <= s.tracker.gen then
        Some(s.(tracker := s.tracker.(canceled := s.tracker.canceled + {g})))
      else None
    case ClientCloseBegin(t) =>
      if At(s, t) then None else Some(Put(s.(tracker := s.tracker.(parentErr := true)), t, ClientCanceling))
    case ClientCancelReturns(t) =>
      if At(s, t) && s.threads[t].ClientCanceling? && AllCanceled(s.tracker) then Some(Put(s, t, ClientCanceled))
      else None
    case _ => None
  }

  function IdleStep(s: State, a: Action): Option<State> {
    match a
    case AddStream(h, keepSession) =>
      if s.idleLock.None? && h !in s.handles then
        Some(s.(streamCount := s.streamCount + 1, handles := s.handles[h := Handle(keepSession, false)]))
      else None
    case Release(t, h) =>
      if s.idleLock.None? && !At(s, t) && h in s.handles && !s.handles[h].released then
        var s' := s.(streamCount := s.streamCount - 1, handles := s.handles[h := s.handles[h].(released := true)]);
        if s'.streamCount > 0 || s.keep || s.handles[h].keepSession then Some(s')
        else Some(Put(s'.(idleLock := Some(t)), t, IdleLocked))
      else None
    case CloseIdle(t) =>
      if s.idleLock.None? && !At(s, t) then
        if s.streamCount > 0 then Some(s) else Some(Put(s.(idleLock := Some(t)), t, IdleLocked))
      else None
    case SetKeep(value) => if s.idleLock.None? then Some(s.(keep := value)) else None
    case _ => None
  }

  /** The state after a step, or none if the step cannot be taken. */
  function Next(s: State, a: Action): Option<State> {
    if a.BeginDial? || a.DialFails? || a.DialYields? || a.TrackCheck? || a.TrackInsert? || a.RejectClose? then
      DialStep(s, a)
    else if a.SelfCloseBegin? || a.SelfUntrack? || a.SelfRawClose? then SelfStep(s, a)
    else if a.ForceClose? || a.CloserStore? || a.CloserRaw? || a.CloserDone? then CloserStep(s, a)
    else if a.CancelParent? || a.DeliverCancel? || a.ClientCloseBegin? || a.ClientCancelReturns? then CancelStep(s, a)
    else IdleStep(s, a)
  }

  // ---------------------------------------------------------------- what every state satisfies

  /** The connection a thread is still handing to Track. */
  function HandedIn(th: Thread): Option<Id> {
    match th
    case Tracking(_, c) => Some(c)
    case Checked(_, c) => Some(c)
    case Rejected(c) => Some(c)
    case _ => None
  }

  ghost predicate ThreadOk(s: State, t: Id, th: Thread) {
    match th
    case Dialing(g) => g <= s.tracker.gen
    case Tracking(g, c) => Unaccepted(s, c) && s.conn[c].gen == g && !s.conn[c].rawClosed
    case Checked(g, c) =>
      Unaccepted(s, c) && s.conn[c].gen == g == s.tracker.gen && !s.conn[c].rawClosed && s.lock == Some(t)
    case Rejected(c) => Unaccepted(s, c)
    case SelfSwapped(c) => c in s.conn && s.conn[c].accepted && s.conn[c].flag
    case SelfUntracked(c) => c in s.conn && s.conn[c].accepted && s.conn[c].flag && c !in s.tracker.conns
    case Closing(origin, todo, current) =>
      && (forall c | c in todo :: c in s.conn && s.conn[c].accepted && c !in s.tracker.conns)
      && (current.Some? ==> current.value in todo)
      && (origin.IdleClose? ==> s.idleLock == Some(t) && s.streamCount == 0)
    case ClientCanceling => s.tracker.parentErr
    case ClientCanceled => s.tracker.parentErr && s.tracker.gen in s.tracker.canceled
    case IdleLocked => s.idleLock == Some(t) && s.streamCount == 0
  }

  predicate Unaccepted(s: State, c: Id) {
    c in s.conn && !s.conn[c].accepted && c !in s.tracker.conns
  }

  ghost predicate ThreadsOk(s: State) {
    forall t | t in s.threads :: ThreadOk(s, t, s.threads[t])
  }

  /** No connection is handed to Track twice. */
  ghost predicate HandedInOnce(s: State) {
    forall t, t' | t in s.threads && t' in s.threads && t != t' && HandedIn(s.threads[t]).Some? ::
      HandedIn(s.threads[t]) != HandedIn(s.threads[t'])
  }

  /** Generations: old contexts are canceled, the current one only through its parent; members are current. */
  ghost predicate ContextsOk(s: State) {
    && (forall g | 0 <= g < s.tracker.gen :: g in s.tracker.canceled)
    && (forall g | g in s.tracker.canceled :: g <= s.tracker.gen)
    && (s.tracker.gen in s.tracker.canceled ==> s.tracker.parentErr)
    && (s.finalized ==>
          && s.lock.None? && s.tracker.parentErr
          && s.tracker.gen in s.tracker.canceled && s.tracker.conns == {})
  }

  ghost predicate ConnOk(s: State, c: Id)
    requires c in s.conn
  {
    && s.conn[c].gen <= s.tracker.gen
    && (c in s.tracker.conns ==> s.conn[c].gen == s.tracker.gen && s.conn[c].accepted && !s.conn[c].rawClosed)
  }

  ghost predicate ConnsOk(s: State) {
    && s.tracker.conns <= s.conn.Keys
    && (forall c | c in s.conn :: ConnOk(s, c))
  }

  ghost predicate LocksOk(s: State) {
    && (s.lock.Some? ==> s.lock.value in s.threads && s.threads[s.lock.value].Checked?)
    && (s.idleLock.Some? ==> s.idleLock.value in s.threads && HoldsIdleLock(s.threads[s.idleLock.value]))
  }

  predicate HoldsIdleLock(th: Thread) {
    th.IdleLocked? || (th.Closing? && th.origin.IdleClose?)
  }

  /** A thread that still has to close c, or to hand it on to the tracker. */
  predicate InCareOf(th: Thread, c: Id) {
    match th
    case Closing(_, todo, _) => c in todo
    case SelfSwapped(c') => c == c'
    case SelfUntracked(c') => c == c'
    case _ => HandedIn(th) == Some(c)
  }

  ghost predicate CaredBy(s: State, t: Id, c: Id) {
    t in s.threads && InCareOf(s.threads[t], c)
  }

  /** No leak: a connection is tracked, closed, or in the care of an unfinished call. */
  ghost predicate NotLeaked(s: State, c: Id)
    requires c in s.conn
  {
    s.conn[c].rawClosed || c in s.tracker.conns || exists t :: CaredBy(s, t, c)
  }

  ghost predicate NoLeak(s: State) {
    forall c | c in s.conn :: NotLeaked(s, c)
  }

  function LiveHandles(s: State): set<Id> {
    set h | h in s.handles && !s.handles[h].released
  }

  /** The counter counts the handles not yet released. */
  ghost predicate CountOk(s: State) {
    s.streamCount == |LiveHandles(s)|
  }

  ghost predicate Inv(s: State) {
    && ThreadsOk(s) && HandedInOnce(s) && ContextsOk(s) && ConnsOk(s) && LocksOk(s) && NoLeak(s) && CountOk(s)
  }
}
