/**
  The readers/writers lock as a step system.  Any number of threads run `rwlock_lock`,
  `rwlock_unlock` and `rwlock_downgrade`; a step is one atomic exchange on a lock word, or
  the straight-line code a thread runs while it holds the lock's mutex.  The wait loop of
  `cond_wait` is taken apart: the test of the flag, the exchange in `thr_deschedule` that
  clears it, giving up the processor, and lying parked until somebody makes the thread
  runnable are separate steps, so a signal may come between any two of them.
*/
module RwLock {
  import opened Lists

  datatype Kind = Reader | Writer

  /** What a thread does after a broadcast: leave, or go on reading after a downgrade. */
  datatype After = Leave | KeepReading

  /** Where a thread is.  `m` is the lock's mutex, `cv.m` the mutex of its condition variable. */
  datatype Pc =
    | Idle
    | WantLock(k: Kind)                  // spinning on m
    | Checking(k: Kind, woken: bool)     // holds m, at the head of the wait loop
    | WantCv(k: Kind)                    // in cond_wait: holds m, spinning on cv.m
    | Enqueued(k: Kind)                  // holds m and cv.m, own record queued
    | Released(k: Kind)                  // holds cv.m
    | Testing(k: Kind)                   // in the wait loop, about to test its flag
    | Trading(k: Kind)                   // saw no flag, about to exchange it for zero
    | Parking(k: Kind)                   // the exchange gave zero, about to give up the processor
    | Parked(k: Kind)                    // waiting until somebody makes it runnable
    | Relock(k: Kind)                    // flag seen, spinning on m
    | Acquired(k: Kind)                  // holds m, has taken the lock
    | InLock(k: Kind)                    // owns the lock
    | WantUnlock(k: Kind)                // spinning on m
    | Unlocking(k: Kind)                 // holds m
    | WantDowngrade                      // spinning on m
    | Downgrading                        // holds m
    | WantSignal                         // last reader: holds m, spinning on cv.m
    | Signalling                         // holds m and cv.m
    | Rousing(u: Tid)                    // holds m and cv.m, has raised the flag of u
    | WantBroadcast(a: After)            // holds m, spinning on cv.m
    | Broadcasting(a: After)             // holds m and cv.m, emptying the queue
    | RousingNext(u: Tid, a: After)      // the same, has raised the flag of u
    | Finishing(a: After)                // holds m, about to release it

  type Tid = nat

  /** The fields of the lock and its condition variable, the wake flags, and the threads the kernel keeps waiting. */
  datatype Shared = Shared(mFree: bool, cvFree: bool, count: int, writerLocked: bool, queue: seq<Tid>, flagged: set<Tid>, parked: set<Tid>)

  datatype State = State(sh: Shared, pc: map<Tid, Pc>)

  predicate HoldsM(p: Pc) {
    || p.Checking? || p.WantCv? || p.Enqueued? || p.Acquired? || p.Unlocking? || p.Downgrading?
    || p.WantSignal? || p.Signalling? || p.Rousing? || p.WantBroadcast? || p.Broadcasting? || p.RousingNext? || p.Finishing?
  }

  predicate HoldsCv(p: Pc) { p.Enqueued? || p.Released? || p.Signalling? || p.Rousing? || p.Broadcasting? || p.RousingNext? }

  predicate OwnsWrite(p: Pc) {
    || ((p.Acquired? || p.InLock? || p.WantUnlock? || p.Unlocking?) && p.k.Writer?)
    || p.WantDowngrade? || p.Downgrading?
  }

  predicate OwnsRead(p: Pc) {
    || ((p.Acquired? || p.InLock? || p.WantUnlock? || p.Unlocking?) && p.k.Reader?)
    || ((p.WantBroadcast? || p.Broadcasting? || p.RousingNext? || p.Finishing?) && p.a.KeepReading?)
  }

  /** The condition of the wait loop in `rwlock_lock`. */
  predicate Blocked(h: Shared, k: Kind) {
    h.writerLocked || (k.Writer? && h.count > 0)
  }

  // ---- Steps ---------------------------------------------------------------

  /** `Rouse(t)` is a `make_runnable` on `t` by anybody, for reasons of their own. */
  datatype Action = Lock(t: Tid, k: Kind) | Unlock(t: Tid) | Downgrade(t: Tid) | Go(t: Tid) | Rouse(t: Tid)

  predicate CanMove(h: Shared, a: Action, p: Pc) {
    match a
    case Lock(_, _) => p.Idle?
    case Unlock(_) => p.InLock?
    case Downgrade(_) => p.InLock? && p.k.Writer?
    case Rouse(_) => true
    case Go(t) =>
      match p
      case Idle => false
      case InLock(_) => false
      case WantLock(_) => h.mFree
      case Relock(_) => h.mFree
      case WantUnlock(_) => h.mFree
      case WantDowngrade => h.mFree
      case WantCv(_) => h.cvFree
      case WantSignal => h.cvFree
      case WantBroadcast(_) => h.cvFree
      case Parked(_) => t !in h.parked
      case _ => true
  }

  /** One step of the thread at `p`: the new shared fields and where the thread is then. */
  function Move(h: Shared, a: Action, p: Pc): (Shared, Pc)
    requires CanMove(h, a, p)
  {
    match a
    case Lock(_, k) => (h, WantLock(k))
    case Unlock(_) => (h, WantUnlock(p.k))
    case Downgrade(_) => (h, WantDowngrade)
    case Rouse(t) => (h.(parked := h.parked - {t}), p)
    case Go(t) => Advance(h, t, p)
  }

  /** Dequeues the first waiter and raises its flag. */
  function Flags(h: Shared): Shared
    requires h.queue != []
  {
    h.(queue := h.queue[1..], flagged := h.flagged + {h.queue[0]})
  }

  function Advance(h: Shared, t: Tid, p: Pc): (Shared, Pc)
  {
    match p
    case WantLock(k) => (h.(mFree := false), Checking(k, false))
    case Checking(k, _) =>
      if Blocked(h, k) then (h, WantCv(k))
      else if k.Reader? then (h.(count := h.count + 1), Acquired(k))
      else (h.(writerLocked := true), Acquired(k))
    case WantCv(k) => (h.(cvFree := false, queue := h.queue + [t]), Enqueued(k))
    case Enqueued(k) => (h.(mFree := true), Released(k))
    case Released(k) => (h.(cvFree := true), Testing(k))
    case Testing(k) => if t in h.flagged then (h.(flagged := h.flagged - {t}), Relock(k)) else (h, Trading(k))
    case Trading(k) => if t in h.flagged then (h.(flagged := h.flagged - {t}), Testing(k)) else (h, Parking(k))
    case Parking(k) => (h.(parked := h.parked + {t}), Parked(k))
    case Parked(k) => (h, Testing(k))
    case Relock(k) => (h.(mFree := false), Checking(k, true))
    case Acquired(k) => (h.(mFree := true), InLock(k))
    case WantUnlock(k) => (h.(mFree := false), Unlocking(k))
    case Unlocking(_) =>
      if h.writerLocked then (h.(writerLocked := false), WantBroadcast(Leave))
      else (h.(count := h.count - 1), if h.count == 1 then WantSignal else Finishing(Leave))
    case WantDowngrade => (h.(mFree := false), Downgrading)
    case Downgrading => (h.(writerLocked := false, count := h.count + 1), WantBroadcast(KeepReading))
    case WantSignal => (h.(cvFree := false), Signalling)
    case Signalling =>
      if h.queue == [] then (h.(cvFree := true), Finishing(Leave))
      else (Flags(h), Rousing(h.queue[0]))
    case Rousing(u) => (h.(cvFree := true, parked := h.parked - {u}), Finishing(Leave))
    case WantBroadcast(x) => (h.(cvFree := false), Broadcasting(x))
    case Broadcasting(x) =>
      if h.queue == [] then (h.(cvFree := true), Finishing(x))
      else (Flags(h), RousingNext(h.queue[0], x))
    case RousingNext(u, x) => (h.(parked := h.parked - {u}), Broadcasting(x))
    case Finishing(x) => (h.(mFree := true), if x.Leave? then Idle else InLock(Reader))
    case _ => (h, p)
  }

  predicate Enabled(s: State, a: Action) { a.t in s.pc && CanMove(s.sh, a, s.pc[a.t]) }

  function Next(s: State, a: Action): State
    requires Enabled(s, a)
  {
    var (h, p) := Move(s.sh, a, s.pc[a.t]);
    State(h, s.pc[a.t := p])
  }

  // ---- Invariant -----------------------------------------------------------

  /** Each mutex has at most one holder, and its word says whether it has one. */
  ghost predicate MutexOk(s: State) {
    && (forall t, u :: t in s.pc && u in s.pc && HoldsM(s.pc[t]) && HoldsM(s.pc[u]) ==> t == u)
    && (forall t, u :: t in s.pc && u in s.pc && HoldsCv(s.pc[t]) && HoldsCv(s.pc[u]) ==> t == u)
    && (s.sh.mFree ==> forall t :: t in s.pc ==> !HoldsM(s.pc[t]))
    && (s.sh.cvFree ==> forall t :: t in s.pc ==> !HoldsCv(s.pc[t]))
  }

  function Readers(s: State): set<Tid> { set t | t in s.pc && OwnsRead(s.pc[t]) }

  /** A writer excludes everyone else; `count` is the number of reading owners. */
  ghost predicate OwnersOk(s: State) {
    && s.sh.count == |Readers(s)|
    && (s.sh.writerLocked ==> s.sh.count == 0 && exists t :: t in s.pc && OwnsWrite(s.pc[t]))
    && (forall t :: t in s.pc && OwnsWrite(s.pc[t]) ==> s.sh.writerLocked)
    && (forall t, u :: t in s.pc && u in s.pc && OwnsWrite(s.pc[t]) && OwnsWrite(s.pc[u]) ==> t == u)
  }

  predicate Sleeps(p: Pc) { p.Testing? || p.Trading? || p.Parking? || p.Parked? }

  predicate Waits(p: Pc) { p.Enqueued? || p.Released? || Sleeps(p) }

  /** The queue lists waiters, each once and without a flag. */
  ghost predicate QueuedOk(s: State) {
    && Distinct(s.sh.queue)
    && (forall t :: t in s.sh.queue ==> t in s.pc && Waits(s.pc[t]) && t !in s.sh.flagged)
    && (forall t :: t in s.pc && (s.pc[t].Enqueued? || s.pc[t].Released?) ==> t in s.sh.queue)
  }

  /** A raised flag belongs to a sleeper, and so does a place in the kernel's waiting pool. */
  ghost predicate FlaggedOk(s: State) {
    && (forall t :: t in s.sh.flagged ==> t in s.pc && Sleeps(s.pc[t]))
    && (forall t :: t in s.sh.parked ==> t in s.pc && s.pc[t].Parked?)
  }

  ghost predicate QueueOk(s: State) { QueuedOk(s) && FlaggedOk(s) }

  predicate Broadcasts(p: Pc) { p.WantBroadcast? || p.Broadcasting? || p.RousingNext? }

  predicate Rouses(p: Pc, t: Tid) { (p.Rousing? || p.RousingNext?) && p.u == t }

  /** Waiters about to queue are really blocked, and without a writer only writers wait. */
  ghost predicate WaitersOk(s: State) {
    && (forall t :: t in s.pc && (s.pc[t].WantCv? || s.pc[t].Enqueued?) ==> Blocked(s.sh, s.pc[t].k))
    && (!s.sh.writerLocked && (forall t :: t in s.pc ==> !Broadcasts(s.pc[t])) ==>
          forall t :: t in s.sh.queue && t in s.pc && Waits(s.pc[t]) ==> s.pc[t].k.Writer?)
  }

  /** A thread that was woken, or one that is about to wake somebody. */
  predicate Pending(s: State, t: Tid) {
    t in s.pc && (t in s.sh.flagged || Woken(s.pc[t]) || WakesOne(s.pc[t]) || Broadcasts(s.pc[t]))
  }

  predicate Woken(p: Pc) { p.Relock? || (p.Checking? && p.woken) }

  predicate WakesOne(p: Pc) { p.WantSignal? || p.Signalling? }

  /** What holds whatever the timing of signals. */
  ghost predicate Inv(s: State) { MutexOk(s) && OwnersOk(s) && QueueOk(s) && WaitersOk(s) }

  /** Every sleeper waits in the queue or has been flagged. */
  ghost predicate NoneStranded(s: State) {
    forall t :: t in s.pc && Sleeps(s.pc[t]) ==> t in s.sh.queue || t in s.sh.flagged
  }

  ghost predicate WillBeRoused(s: State, t: Tid) { exists v :: v in s.pc && Rouses(s.pc[v], t) }

  /** A flagged sleeper is about to test its flag, or will once it runs again, and somebody will see to that. */
  ghost predicate FlagsSeen(s: State) { forall t :: t in s.sh.flagged ==> WillSee(s, t) }

  ghost predicate WillSee(s: State, t: Tid) {
    t in s.pc ==>
      || s.pc[t].Testing? || (s.pc[t].Parked? && t !in s.sh.parked)
      || ((s.pc[t].Parked? || s.pc[t].Parking?) && WillBeRoused(s, t))
  }

  /** Whoever waits, waits for an owner or for a thread already on its way. */
  ghost predicate Awaited(s: State) {
    s.sh.queue != [] ==> s.sh.writerLocked || s.sh.count > 0 || exists t :: Pending(s, t)
  }

  /** No lost wakeup. */
  ghost predicate WakeOk(s: State) { NoneStranded(s) && FlagsSeen(s) && Awaited(s) }

  /**
    The step raises nobody's flag between the thread's test and its exchange, and makes no
    flagged thread runnable between its exchange and its being parked.
  */
  predicate Timely(s: State, a: Action)
    requires a.t in s.pc
  {
    && (Dequeues(s.sh, a, s.pc[a.t]) && s.sh.queue[0] in s.pc ==> !s.pc[s.sh.queue[0]].Trading?)
    && (a.Go? ==> forall t :: t in s.sh.flagged && t in s.pc && Rouses(s.pc[a.t], t) ==> !s.pc[t].Parking?)
  }

  // ---- Preservation --------------------------------------------------------

  /** A step takes the lock's mutex only when it is free and frees it only as its holder. */
  lemma LockEffect(h: Shared, a: Action, p: Pc)
    requires CanMove(h, a, p)
    ensures var (h', p') := Move(h, a, p);
      && (HoldsM(p') ==> if HoldsM(p) then h'.mFree == h.mFree else h.mFree && !h'.mFree)
      && (!HoldsM(p') ==> if HoldsM(p) then h'.mFree else h'.mFree == h.mFree)
  {
    hide Blocked;
  }

  /** The same for the mutex of the condition variable. */
  lemma CvEffect(h: Shared, a: Action, p: Pc)
    requires CanMove(h, a, p)
    ensures var (h', p') := Move(h, a, p);
      && (HoldsCv(p') ==> if HoldsCv(p) then h'.cvFree == h.cvFree else h.cvFree && !h'.cvFree)
      && (!HoldsCv(p') ==> if HoldsCv(p) then h'.cvFree else h'.cvFree == h.cvFree)
  {
    hide Blocked;
  }

  lemma MutexStep(s: State, a: Action)
    requires MutexOk(s) && Enabled(s, a)
    ensures MutexOk(Next(s, a))
  {
    hide Move, CanMove, HoldsM, HoldsCv;
    LockEffect(s.sh, a, s.pc[a.t]);
    CvEffect(s.sh, a, s.pc[a.t]);
  }

  /** What ownership and the two counters have to do with each other at one thread. */
  predicate OwnerHere(h: Shared, p: Pc) {
    && h.count >= 0 && (h.writerLocked ==> h.count == 0)
    && (OwnsWrite(p) ==> h.writerLocked)
    && (OwnsRead(p) ==> !h.writerLocked && h.count > 0)
  }

  /** How one step changes reading ownership. */
  lemma ReadEffect(h: Shared, a: Action, p: Pc)
    requires CanMove(h, a, p) && OwnerHere(h, p)
    ensures var (h', p') := Move(h, a, p);
      && (OwnsRead(p') && !OwnsRead(p) ==> !h'.writerLocked && h'.count == h.count + 1)
      && (OwnsRead(p) && !OwnsRead(p') ==> h'.count == h.count - 1)
  {
  }

  lemma ReadSame(h: Shared, a: Action, p: Pc)
    requires CanMove(h, a, p) && OwnerHere(h, p)
    ensures var (h', p') := Move(h, a, p); OwnsRead(p) == OwnsRead(p') ==> h'.count == h.count
  {
  }

  /** How one step changes writing ownership. */
  lemma WriteEffect(h: Shared, a: Action, p: Pc)
    requires CanMove(h, a, p) && OwnerHere(h, p)
    ensures var (h', p') := Move(h, a, p);
      && (OwnsWrite(p') && !OwnsWrite(p) ==> !h.writerLocked && h.count == 0 && h'.writerLocked)
      && (OwnsWrite(p) && !OwnsWrite(p') ==> !h'.writerLocked)
      && (OwnsWrite(p) == OwnsWrite(p') ==> h'.writerLocked == h.writerLocked)
  {
  }

  lemma OwnersStep(s: State, a: Action)
    requires OwnersOk(s) && Enabled(s, a)
    ensures OwnersOk(Next(s, a))
  {
    hide OwnsRead, OwnsWrite;
    hide Move, CanMove;
    var s', t := Next(s, a), a.t;
    OwnerAt(s, t);
    ReadEffect(s.sh, a, s.pc[t]);
    ReadSame(s.sh, a, s.pc[t]);
    WriteEffect(s.sh, a, s.pc[t]);
    assert Readers(s') == if OwnsRead(s'.pc[t]) then Readers(s) + {t} else Readers(s) - {t};
    if s'.sh.writerLocked && !OwnsWrite(s'.pc[t]) {
      var u :| u in s.pc && OwnsWrite(s.pc[u]);
      assert u in s'.pc && OwnsWrite(s'.pc[u]);
    }
  }

  lemma OwnerAt(s: State, t: Tid)
    requires OwnersOk(s) && t in s.pc
    ensures OwnerHere(s.sh, s.pc[t]) && (t in Readers(s) <==> OwnsRead(s.pc[t]))
  {
    hide OwnsRead, OwnsWrite;
    if OwnsRead(s.pc[t]) { assert t in Readers(s); }
  }

  predicate Dequeues(h: Shared, a: Action, p: Pc) { a.Go? && (p.Signalling? || p.Broadcasting?) && h.queue != [] }

  predicate Enqueues(a: Action, p: Pc) { a.Go? && p.WantCv? }

  /** The thread takes its own flag down: it goes on, or has lost it to the exchange. */
  predicate Lowers(h: Shared, a: Action, p: Pc) { a.Go? && (p.Testing? || p.Trading?) && a.t in h.flagged }

  predicate Resumes(h: Shared, a: Action, p: Pc) { a.Go? && p.Testing? && a.t in h.flagged }

  /** How one step changes the queue and the flags. */
  lemma QueueEffect(h: Shared, a: Action, p: Pc)
    requires CanMove(h, a, p)
    ensures var (h', p') := Move(h, a, p);
      && (Enqueues(a, p) ==> h'.queue == h.queue + [a.t])
      && (Dequeues(h, a, p) ==> h'.queue == h.queue[1..])
      && (!Enqueues(a, p) && !Dequeues(h, a, p) ==> h'.queue == h.queue)
      && (Dequeues(h, a, p) ==> h'.flagged == h.flagged + {h.queue[0]})
      && (Lowers(h, a, p) ==> h'.flagged == h.flagged - {a.t})
      && (!Lowers(h, a, p) && !Dequeues(h, a, p) ==> h'.flagged == h.flagged)
  {
    hide Blocked;
  }

  /** How one step changes who waits. */
  lemma WaitEffect(h: Shared, a: Action, p: Pc)
    requires CanMove(h, a, p)
    ensures var (h', p') := Move(h, a, p);
      && (Enqueues(a, p) ==> p' == Enqueued(p.k))
      && (!Enqueues(a, p) && !Resumes(h, a, p) ==> Waits(p) == Waits(p') && (Waits(p) ==> p.k == p'.k))
      && (Resumes(h, a, p) ==> p' == Relock(p.k)) && (Sleeps(p) && !Resumes(h, a, p) ==> Sleeps(p'))
      && (Waits(p') && !Sleeps(p') ==> !Sleeps(p))
      && (Dequeues(h, a, p) ==> HoldsCv(p) && !Waits(p))
  {
    hide Blocked;
  }

  /** How one step changes who is parked. */
  lemma ParkEffect(h: Shared, a: Action, p: Pc)
    requires CanMove(h, a, p)
    ensures var (h', p') := Move(h, a, p);
      && (forall t :: t in h'.parked && t != a.t ==> t in h.parked)
      && (a.t in h'.parked ==> p'.Parked? || a.t in h.parked)
      && (p.Parked? && a.t in h'.parked ==> p'.Parked?)
      && (p.Parked? && a.Go? ==> a.t !in h.parked)
  {
  }

  lemma HeadSleeps(s: State, a: Action)
    requires QueueOk(s) && MutexOk(s) && Enabled(s, a) && Dequeues(s.sh, a, s.pc[a.t])
    ensures var h := s.sh.queue[0]; h in s.pc && Sleeps(s.pc[h]) && h !in s.sh.flagged && h != a.t
  {
    var h := s.sh.queue[0];
    assert h in s.sh.queue;
    assert HoldsCv(s.pc[a.t]) && h != a.t;
    assert !HoldsCv(s.pc[h]);
  }

  lemma QueueStep(s: State, a: Action)
    requires QueueOk(s) && MutexOk(s) && Enabled(s, a)
    ensures QueueOk(Next(s, a))
  {
    hide QueuedOk, FlaggedOk, MutexOk, Next;
    QueuedStep(s, a);
    FlaggedStep(s, a);
  }

  lemma FlaggedStep(s: State, a: Action)
    requires QueueOk(s) && MutexOk(s) && Enabled(s, a)
    ensures FlaggedOk(Next(s, a))
  {
    hide MutexOk, HoldsM, HoldsCv, Move, CanMove;
    var s', t, p := Next(s, a), a.t, s.pc[a.t];
    QueueEffect(s.sh, a, p);
    WaitEffect(s.sh, a, p);
    ParkEffect(s.sh, a, p);
    if Dequeues(s.sh, a, p) { HeadSleeps(s, a); }
  }

  lemma QueuedStep(s: State, a: Action)
    requires QueueOk(s) && MutexOk(s) && Enabled(s, a)
    ensures QueuedOk(Next(s, a))
  {
    hide MutexOk, HoldsM, HoldsCv, Move, CanMove, Distinct;
    var s', t, p := Next(s, a), a.t, s.pc[a.t];
    QueueEffect(s.sh, a, p);
    WaitEffect(s.sh, a, p);
    if Dequeues(s.sh, a, p) {
      HeadSleeps(s, a);
      HeadTail(s.sh.queue);
    } else if Enqueues(a, p) {
      assert t !in s.sh.queue;
      AppendDistinct(s.sh.queue, t);
      assert forall u :: u in s'.sh.queue <==> u in s.sh.queue || u == t;
    }
  }

  /** How one step changes what is blocked. */
  lemma WaitersEffect(h: Shared, a: Action, p: Pc)
    requires CanMove(h, a, p)
    ensures var (h', p') := Move(h, a, p);
      && (p'.WantCv? ==> p' == p || Blocked(h', p'.k))
      && (p'.Enqueued? ==> p' == p || p == WantCv(p'.k))
      && (p'.Enqueued? || p' == p ==> h'.count == h.count && h'.writerLocked == h.writerLocked)
      && (h'.count != h.count || h'.writerLocked != h.writerLocked ==> HoldsM(p))
      && (h.writerLocked && !h'.writerLocked ==> Broadcasts(p'))
      && (Broadcasts(p) && !Broadcasts(p') ==> h'.queue == [])
  {
  }

  lemma WaitersStep(s: State, a: Action)
    requires QueueOk(s) && MutexOk(s) && WaitersOk(s) && Enabled(s, a)
    ensures WaitersOk(Next(s, a))
  {
    hide Move, CanMove;
    var s', t := Next(s, a), a.t;
    QueueStep(s, a);
    WaitersEffect(s.sh, a, s.pc[t]);
    forall u | u in s'.pc && (s'.pc[u].WantCv? || s'.pc[u].Enqueued?) ensures Blocked(s'.sh, s'.pc[u].k) {
      if u == t {
        if s'.pc[u].Enqueued? || s'.pc[u] == s.pc[u] { assert Blocked(s.sh, s.pc[t].k); }
      } else {
        assert HoldsM(s.pc[u]) && Blocked(s.sh, s.pc[u].k);
      }
    }
    if !s'.sh.writerLocked && forall u :: u in s'.pc ==> !Broadcasts(s'.pc[u]) {
      forall u | u in s'.sh.queue ensures s'.pc[u].k.Writer? {
        WaitersWrite(s, a, u);
      }
    }
  }

  lemma WaitersWrite(s: State, a: Action, u: Tid)
    requires QueueOk(s) && MutexOk(s) && WaitersOk(s) && Enabled(s, a) && QueueOk(Next(s, a))
    requires var s' := Next(s, a); !s'.sh.writerLocked && (forall v :: v in s'.pc ==> !Broadcasts(s'.pc[v])) && u in s'.sh.queue
    ensures Next(s, a).pc[u].k.Writer?
  {
    hide Move, CanMove;
    var s', t, p := Next(s, a), a.t, s.pc[a.t];
    QueueEffect(s.sh, a, p);
    WaitEffect(s.sh, a, p);
    WaitersEffect(s.sh, a, p);
    assert t in s'.pc && !Broadcasts(s'.pc[t]);
    assert u in s'.pc && Waits(s'.pc[u]) && !s.sh.writerLocked;
    assert forall v :: v in s.pc && v != t ==> s'.pc[v] == s.pc[v];
    assert !Broadcasts(p);
    if u == t && Enqueues(a, p) {
      assert Blocked(s.sh, p.k);
    } else {
      assert u in s.sh.queue && u in s.pc && Waits(s.pc[u]);
    }
  }

  /** How one step changes who is pending. */
  lemma WakeEffect(h: Shared, a: Action, p: Pc)
    requires CanMove(h, a, p) && OwnerHere(h, p)
    ensures var (h', p') := Move(h, a, p);
      && (h.writerLocked && !h'.writerLocked ==> Broadcasts(p'))
      && (!h.writerLocked && h.count > 0 ==> h'.count > 0 || WakesOne(p'))
      && (Resumes(h, a, p) ==> p'.Relock?)
      && (Woken(p) ==> Woken(p') || h'.writerLocked || h'.count > 0)
      && (WakesOne(p) || Broadcasts(p) ==> WakesOne(p') || Broadcasts(p') || Dequeues(h, a, p) || h'.queue == [])
  {
  }

  /** A sleeper goes round its loop, and takes down its flag only at the test if it is raised in time. */
  lemma SleepEffect(h: Shared, a: Action, p: Pc)
    requires CanMove(h, a, p)
    ensures var (h', p') := Move(h, a, p);
      && (Sleeps(p) && a.Go? && a.t !in h.flagged ==> Sleeps(p') && a.t !in h'.flagged)
      && (Sleeps(p) && a.Go? && p.Parked? ==> p'.Testing?)
      && (Sleeps(p) && !a.Go? ==> p' == p && a.Rouse? && h' == h.(parked := h.parked - {a.t}))
      && (!Sleeps(p) && Sleeps(p') ==> p.Released? && h'.queue == h.queue && h'.flagged == h.flagged)
      && (p.Trading? && a.Go? && a.t in h.flagged ==> p'.Testing? && a.t !in h'.flagged)
  {
  }

  lemma StrandedStep(s: State, a: Action)
    requires Inv(s) && NoneStranded(s) && FlagsSeen(s) && Enabled(s, a)
    ensures NoneStranded(Next(s, a))
  {
    hide Move, CanMove, MutexOk, OwnersOk, WaitersOk, HoldsM, HoldsCv;
    var s', t, p := Next(s, a), a.t, s.pc[a.t];
    QueueEffect(s.sh, a, p);
    WaitEffect(s.sh, a, p);
    SleepEffect(s.sh, a, p);
    forall u | u in s'.pc && Sleeps(s'.pc[u]) ensures u in s'.sh.queue || u in s'.sh.flagged {
      if u in s.sh.queue && Dequeues(s.sh, a, p) { assert s.sh.queue == [s.sh.queue[0]] + s'.sh.queue; }
    }
  }

  predicate IsRousing(p: Pc) { p.Rousing? || p.RousingNext? }

  /** How one step changes who is about to be made runnable. */
  lemma RouseEffect(h: Shared, a: Action, p: Pc)
    requires CanMove(h, a, p)
    ensures var (h', p') := Move(h, a, p);
      && (Dequeues(h, a, p) ==> Rouses(p', h.queue[0]) && h'.parked == h.parked)
      && (IsRousing(p) && a.Go? ==> !IsRousing(p') && h'.parked == h.parked - {p.u})
      && (!a.Go? ==> h'.parked <= h.parked && (IsRousing(p) ==> p' == p))
      && (p.Parking? && a.Go? ==> p'.Parked?) && (p.Parking? && !a.Go? ==> p' == p)
  {
  }

  /** After a timely step every raised flag will be seen. */
  lemma FlagsKept(s: State, a: Action, t: Tid)
    requires Inv(s) && FlagsSeen(s) && Enabled(s, a) && Timely(s, a) && t in Next(s, a).sh.flagged
    ensures WillSee(Next(s, a), t)
  {
    hide Move, CanMove, OwnersOk, WaitersOk, HoldsM, HoldsCv, MutexOk;
    var s', p := Next(s, a), s.pc[a.t];
    QueueEffect(s.sh, a, p);
    WaitEffect(s.sh, a, p);
    ParkEffect(s.sh, a, p);
    SleepEffect(s.sh, a, p);
    RouseEffect(s.sh, a, p);
    if Dequeues(s.sh, a, p) { HeadSleeps(s, a); }
    if t in s.sh.flagged && WillBeRoused(s, t) {
      var v :| v in s.pc && Rouses(s.pc[v], t);
      if v != a.t || !a.Go? { assert Rouses(s'.pc[v], t); }
    } else if Dequeues(s.sh, a, p) && t == s.sh.queue[0] {
      assert Rouses(s'.pc[a.t], t);
    }
  }

  /** A step that is not timely leaves a flag that will not be seen. */
  lemma FlagLost(s: State, a: Action)
    requires Inv(s) && FlagsSeen(s) && Enabled(s, a) && !Timely(s, a)
    ensures !FlagsSeen(Next(s, a))
  {
    hide Move, CanMove, OwnersOk, WaitersOk, HoldsCv;
    var s', p := Next(s, a), s.pc[a.t];
    QueueEffect(s.sh, a, p);
    RouseEffect(s.sh, a, p);
    if Dequeues(s.sh, a, p) {
      HeadSleeps(s, a);
      assert s.sh.queue[0] in s'.sh.flagged && s'.pc[s.sh.queue[0]].Trading?;
    } else {
      var t :| t in s.sh.flagged && t in s.pc && Rouses(p, t) && s.pc[t].Parking?;
      assert t in s'.sh.flagged && s'.pc[t].Parking?;
      forall v | v in s'.pc ensures !Rouses(s'.pc[v], t) {
        assert v != a.t ==> !HoldsM(s.pc[v]);
      }
    }
  }

  /** Flags stay where they are seen exactly when the step is timely. */
  lemma FlagsStep(s: State, a: Action)
    requires Inv(s) && FlagsSeen(s) && Enabled(s, a)
    ensures FlagsSeen(Next(s, a)) <==> Timely(s, a)
  {
    hide Inv, Next, Timely;
    if Timely(s, a) {
      forall t | t in Next(s, a).sh.flagged ensures WillSee(Next(s, a), t) { FlagsKept(s, a, t); }
    } else {
      FlagLost(s, a);
    }
  }

  lemma AwaitedStep(s: State, a: Action)
    requires Inv(s) && FlagsSeen(s) && Awaited(s) && Enabled(s, a)
    ensures Awaited(Next(s, a))
  {
    hide Move, CanMove;
    var s', t, p := Next(s, a), a.t, s.pc[a.t];
    OwnerAt(s, t);
    QueueEffect(s.sh, a, p);
    WaitEffect(s.sh, a, p);
    WakeEffect(s.sh, a, p);
    WaitersEffect(s.sh, a, p);
    if Dequeues(s.sh, a, p) { HeadSleeps(s, a); }
    assert Enqueues(a, p) ==> Blocked(s.sh, p.k);
    assert t in s.sh.flagged ==> Sleeps(p) && WillSee(s, t);
    hide MutexOk, OwnersOk, HoldsM, HoldsCv, QueueOk, WaitersOk, OwnerHere, FlagsSeen;
    if s'.sh.queue != [] && !s'.sh.writerLocked && s'.sh.count <= 0 {
      if Dequeues(s.sh, a, p) {
        assert Pending(s', s.sh.queue[0]);
      } else if !Pending(s', t) {
        assert s.sh.queue != [];
        var u :| Pending(s, u);
        assert u != t && Pending(s', u);
      }
    }
  }

  /** Every step of every thread keeps mutual exclusion and the queue in order, whatever its timing. */
  lemma InvStep(s: State, a: Action)
    requires Inv(s) && Enabled(s, a)
    ensures Inv(Next(s, a))
  {
    MutexStep(s, a);
    OwnersStep(s, a);
    QueueStep(s, a);
    WaitersStep(s, a);
  }

  /** A step loses no wakeup if and only if it is timely. */
  lemma WakeStep(s: State, a: Action)
    requires Inv(s) && WakeOk(s) && Enabled(s, a)
    ensures WakeOk(Next(s, a)) <==> Timely(s, a)
  {
    hide Inv, NoneStranded, FlagsSeen, Awaited, Next, Timely;
    StrandedStep(s, a);
    FlagsStep(s, a);
    AwaitedStep(s, a);
  }

  // ---- Lost wakeups --------------------------------------------------------

  /** A sleeper that nobody will ever signal. */
  predicate Stranded(s: State, t: Tid) {
    t in s.pc && Sleeps(s.pc[t]) && t !in s.sh.queue && t !in s.sh.flagged
  }

  /** The exchange in `thr_deschedule` throws away a flag raised since the test. */
  lemma ExchangeLoses(s: State, t: Tid)
    requires Inv(s) && t in s.sh.flagged && t in s.pc && s.pc[t].Trading?
    ensures Enabled(s, Go(t)) && Stranded(Next(s, Go(t)), t)
  {
    hide MutexOk, OwnersOk, WaitersOk;
  }

  /** Nothing any thread does helps a stranded sleeper. */
  lemma StaysStranded(s: State, a: Action, t: Tid)
    requires Stranded(s, t) && Enabled(s, a)
    ensures Stranded(Next(s, a), t)
  {
    hide Move, CanMove;
    QueueEffect(s.sh, a, s.pc[a.t]);
    WaitEffect(s.sh, a, s.pc[a.t]);
    SleepEffect(s.sh, a, s.pc[a.t]);
    var q, q' := s.sh.queue, Next(s, a).sh.queue;
    if Dequeues(s.sh, a, s.pc[a.t]) { assert q == [q[0]] + q' && t != q[0]; }
  }

  lemma {:induction false} StrandedForever(s: State, acts: seq<Action>, s': State, t: Tid)
    requires Stranded(s, t) && Runs(s, acts, s')
    ensures Stranded(s', t) && !s'.pc[t].InLock?
    decreases |acts|
  {
    hide Next, Enabled;
    if acts != [] {
      StaysStranded(s, acts[0], t);
      StrandedForever(Next(s, acts[0]), acts[1..], s', t);
    }
  }

  // ---- Runs ----------------------------------------------------------------

  /** After `rwlock_init`, with every thread outside the lock. */
  predicate Init(s: State) {
    && s.sh.mFree && s.sh.cvFree && s.sh.count == 0 && !s.sh.writerLocked && s.sh.queue == [] && s.sh.flagged == {} && s.sh.parked == {}
    && forall t :: t in s.pc ==> s.pc[t].Idle?
  }

  predicate Runs(s: State, acts: seq<Action>, s': State)
    decreases |acts|
  {
    if acts == [] then s' == s
    else Enabled(s, acts[0]) && Runs(Next(s, acts[0]), acts[1..], s')
  }

  lemma {:induction false} InvRuns(s: State, acts: seq<Action>, s': State)
    requires Inv(s) && Runs(s, acts, s')
    ensures Inv(s')
    decreases |acts|
  {
    if acts != [] {
      InvStep(s, acts[0]);
      InvRuns(Next(s, acts[0]), acts[1..], s');
    }
  }

  /** No signal of the run raises a flag between its thread's test and its being parked. */
  predicate TimelyRun(s: State, acts: seq<Action>, s': State)
    decreases |acts|
  {
    if acts == [] then s' == s
    else Enabled(s, acts[0]) && Timely(s, acts[0]) && TimelyRun(Next(s, acts[0]), acts[1..], s')
  }

  lemma {:induction false} WakeRuns(s: State, acts: seq<Action>, s': State)
    requires Inv(s) && WakeOk(s) && TimelyRun(s, acts, s')
    ensures Runs(s, acts, s') && WakeOk(s')
    decreases |acts|
  {
    hide Inv, WakeOk, Next, Enabled, Timely;
    if acts != [] {
      InvStep(s, acts[0]);
      WakeStep(s, acts[0]);
      WakeRuns(Next(s, acts[0]), acts[1..], s');
    }
  }

  lemma InitInv(s: State)
    requires Init(s)
    ensures Inv(s) && WakeOk(s)
  {
    assert Readers(s) == {};
  }

  predicate Inside(p: Pc, k: Kind) { p.InLock? && p.k == k }

  /**
    In every interleaving of any number of threads: a writer inside the lock is alone inside;
    and whenever the mutex is free and no writer owns the lock, everything waiting on the
    condition variable is a writer.
  */
  lemma Safety(s0: State, acts: seq<Action>, s: State)
    requires Init(s0) && Runs(s0, acts, s)
    ensures forall t, u :: t in s.pc && u in s.pc && Inside(s.pc[t], Writer) && s.pc[u].InLock? ==> t == u
    ensures s.sh.mFree && !s.sh.writerLocked ==> forall t :: t in s.sh.queue ==> t in s.pc && Waits(s.pc[t]) && s.pc[t].k.Writer?
  {
    InitInv(s0);
    InvRuns(s0, acts, s);
    forall t, u | t in s.pc && u in s.pc && Inside(s.pc[t], Writer) && s.pc[u].InLock? ensures t == u {
      OwnerAt(s, u);
    }
    if s.sh.mFree {
      assert forall t :: t in s.pc ==> !HoldsM(s.pc[t]);
      assert forall t :: t in s.pc ==> !Broadcasts(s.pc[t]);
    }
  }

  /**
    In every interleaving whose signals are timely: when the lock is free with threads waiting, a
    wakeup is pending, and every sleeper is in the queue or has a flag that it will see.
  */
  lemma NoLostWakeup(s0: State, acts: seq<Action>, s: State)
    requires Init(s0) && TimelyRun(s0, acts, s)
    ensures s.sh.queue != [] && !s.sh.writerLocked && s.sh.count == 0 ==> exists t :: Pending(s, t)
    ensures forall t :: t in s.pc && Sleeps(s.pc[t]) ==> t in s.sh.queue || t in s.sh.flagged
    ensures FlagsSeen(s)
  {
    InitInv(s0);
    WakeRuns(s0, acts, s);
  }

  /** The panics on bad counts and on unlocking or downgrading a lock not held are unreachable. */
  lemma NoPanic(s0: State, acts: seq<Action>, s: State, t: Tid)
    requires Init(s0) && Runs(s0, acts, s) && t in s.pc
    ensures s.sh.count >= 0
    ensures s.pc[t].Unlocking? ==> s.sh.count > 0 || s.sh.writerLocked
    ensures s.pc[t].Downgrading? ==> s.sh.writerLocked
    ensures s.pc[t].Unlocking? ==> (s.sh.writerLocked <==> s.pc[t].k.Writer?)
  {
    InitInv(s0);
    InvRuns(s0, acts, s);
    OwnerAt(s, t);
  }

  // ---- What a call comes to ------------------------------------------------

  /** The last call a thread has made. */
  datatype Call = NoCall | Locks(k: Kind) | Unlocks | Downgrades

  function CallAfter(c: Call, a: Action, t: Tid): Call {
    if a.t != t then c
    else
      match a
      case Lock(_, k) => Locks(k)
      case Unlock(_) => Unlocks
      case Downgrade(_) => Downgrades
      case _ => c
  }

  function LastCall(c: Call, acts: seq<Action>, t: Tid): Call
    decreases |acts|
  {
    if acts == [] then c else LastCall(CallAfter(c, acts[0], t), acts[1..], t)
  }

  predicate Returned(p: Pc) { p.Idle? || p.InLock? }

  /** On the way to a broadcast, in it, or behind it. */
  predicate Ending(p: Pc, x: After) { (Broadcasts(p) || p.Finishing?) && p.a == x }

  /** A thread is where its last call leads it. */
  predicate Follows(c: Call, p: Pc) {
    match c
    case NoCall => p.Idle?
    case Locks(k) =>
      (p.WantLock? || p.Checking? || p.WantCv? || Waits(p) || p.Relock? || p.Acquired? || p.InLock?) && p.k == k
    case Unlocks => p.Idle? || p.WantUnlock? || p.Unlocking? || WakesOne(p) || p.Rousing? || Ending(p, Leave)
    case Downgrades => p.WantDowngrade? || p.Downgrading? || Ending(p, KeepReading) || p == InLock(Reader)
  }

  lemma FollowsOn(h: Shared, a: Action, p: Pc, c: Call)
    requires CanMove(h, a, p) && Follows(c, p)
    ensures Follows(CallAfter(c, a, a.t), Move(h, a, p).1)
  {
    hide Blocked, OwnsRead, OwnsWrite;
  }

  lemma {:induction false} FollowsRuns(s: State, acts: seq<Action>, s': State, t: Tid, c: Call)
    requires Runs(s, acts, s') && t in s.pc && Follows(c, s.pc[t])
    ensures t in s'.pc && Follows(LastCall(c, acts, t), s'.pc[t])
    decreases |acts|
  {
    hide Follows, Move, CanMove;
    if acts != [] {
      if acts[0].t == t { FollowsOn(s.sh, acts[0], s.pc[t], c); }
      FollowsRuns(Next(s, acts[0]), acts[1..], s', t, CallAfter(c, acts[0], t));
    }
  }

  /**
    In every interleaving a call to lock ends inside with the kind asked for, one to unlock ends
    outside, and one to downgrade ends inside as a reader.
  */
  lemma CallsEnd(s0: State, acts: seq<Action>, s: State, t: Tid)
    requires Init(s0) && Runs(s0, acts, s) && t in s.pc && Returned(s.pc[t])
    ensures s.pc[t] ==
      match LastCall(NoCall, acts, t)
      case Locks(k) => InLock(k)
      case Downgrades => InLock(Reader)
      case _ => Idle
  {
    SameThreads(s0, acts, s);
    FollowsRuns(s0, acts, s, t, NoCall);
  }

  lemma {:induction false} SameThreads(s: State, acts: seq<Action>, s': State)
    requires Runs(s, acts, s')
    ensures s.pc.Keys == s'.pc.Keys
    decreases |acts|
  {
    hide Move, CanMove;
    if acts != [] { SameThreads(Next(s, acts[0]), acts[1..], s'); }
  }

  /**
    In every interleaving a downgrade never lets go of the lock: from the call on until its next
    unlock the thread owns the lock, and nobody else owns it for writing.
  */
  lemma DowngradeKeepsLock(s0: State, acts: seq<Action>, s: State, t: Tid)
    requires Init(s0) && Runs(s0, acts, s) && t in s.pc && LastCall(NoCall, acts, t).Downgrades?
    ensures OwnsRead(s.pc[t]) || OwnsWrite(s.pc[t])
    ensures s.sh.writerLocked || s.sh.count > 0
    ensures forall u :: u in s.pc && u != t ==> !OwnsWrite(s.pc[u]) && !Inside(s.pc[u], Writer)
  {
    hide Inv, OwnsRead, OwnsWrite, Follows;
    SameThreads(s0, acts, s);
    FollowsRuns(s0, acts, s, t, NoCall) by { InitIdle(s0, t); }
    InitInv(s0);
    InvRuns(s0, acts, s);
    DowngraderOwns(s.pc[t]);
    OwnerExcludes(s, t);
  }

  lemma InitIdle(s: State, t: Tid)
    requires Init(s) && t in s.pc
    ensures Follows(NoCall, s.pc[t])
  {
  }

  lemma DowngraderOwns(p: Pc)
    requires Follows(Downgrades, p)
    ensures OwnsRead(p) || OwnsWrite(p)
  {
  }

  /** Whoever owns the lock keeps writers out. */
  lemma OwnerExcludes(s: State, t: Tid)
    requires Inv(s) && t in s.pc && (OwnsRead(s.pc[t]) || OwnsWrite(s.pc[t]))
    ensures s.sh.writerLocked || s.sh.count > 0
    ensures forall u :: u in s.pc && u != t ==> !OwnsWrite(s.pc[u]) && !Inside(s.pc[u], Writer)
  {
    hide MutexOk, QueueOk, WaitersOk, OwnsRead;
    OwnerAt(s, t);
  }

  // ---- Progress ------------------------------------------------------------

  /** A mutex that is not free has a holder. */
  ghost predicate HeldOk(s: State) {
    && (!s.sh.mFree ==> exists t :: t in s.pc && HoldsM(s.pc[t]))
    && (!s.sh.cvFree ==> exists t :: t in s.pc && HoldsCv(s.pc[t]))
  }

  lemma HeldStep(s: State, a: Action)
    requires HeldOk(s) && Enabled(s, a)
    ensures HeldOk(Next(s, a))
  {
    hide Move, CanMove, HoldsM, HoldsCv;
    var s' := Next(s, a);
    LockEffect(s.sh, a, s.pc[a.t]);
    CvEffect(s.sh, a, s.pc[a.t]);
    if !s'.sh.mFree && !HoldsM(s'.pc[a.t]) {
      var t :| t in s.pc && HoldsM(s.pc[t]);
      assert t in s'.pc && HoldsM(s'.pc[t]);
    }
    if !s'.sh.cvFree && !HoldsCv(s'.pc[a.t]) {
      var t :| t in s.pc && HoldsCv(s.pc[t]);
      assert t in s'.pc && HoldsCv(s'.pc[t]);
    }
  }

  lemma {:induction false} HeldRuns(s: State, acts: seq<Action>, s': State)
    requires HeldOk(s) && Runs(s, acts, s')
    ensures HeldOk(s')
    decreases |acts|
  {
    hide HeldOk, Next, Enabled;
    if acts != [] {
      HeldStep(s, acts[0]);
      HeldRuns(Next(s, acts[0]), acts[1..], s');
    }
  }

  /** No thread can go on by itself. */
  ghost predicate Still(s: State) { forall t :: t in s.pc ==> !Enabled(s, Go(t)) }

  lemma StillFree(s: State)
    requires HeldOk(s) && Still(s)
    ensures s.sh.mFree && s.sh.cvFree
    ensures forall t :: t in s.pc ==> Returned(s.pc[t]) || (s.pc[t].Parked? && t in s.sh.parked)
  {
    hide HoldsM, HoldsCv, CanMove;
    forall t | t in s.pc ensures !HoldsCv(s.pc[t]) && (s.sh.cvFree ==> !HoldsM(s.pc[t])) {
      assert !Enabled(s, Go(t));
      HoldersMove(s.sh, t, s.pc[t]);
    }
    forall t | t in s.pc ensures Returned(s.pc[t]) || (s.pc[t].Parked? && t in s.sh.parked) {
      assert !Enabled(s, Go(t));
      HoldersMove(s.sh, t, s.pc[t]);
    }
  }

  /** Who cannot go on holds no mutex, and with both mutexes free is out, inside or parked. */
  lemma HoldersMove(h: Shared, t: Tid, p: Pc)
    requires !CanMove(h, Go(t), p)
    ensures !HoldsCv(p) && (h.cvFree ==> !HoldsM(p))
    ensures h.cvFree && h.mFree ==> Returned(p) || (p.Parked? && t in h.parked)
  {
  }

  /**
    No deadlock: when signals are timely and nobody can go on, both mutexes are free, everybody is
    out of the lock, inside it or parked, and if anybody is parked then somebody is inside.
  */
  lemma NoDeadlock(s0: State, acts: seq<Action>, s: State)
    requires Init(s0) && TimelyRun(s0, acts, s) && Still(s)
    ensures s.sh.mFree && s.sh.cvFree && forall t :: t in s.pc ==> Returned(s.pc[t]) || s.pc[t].Parked?
    ensures (exists t :: t in s.pc && s.pc[t].Parked?) ==> exists u :: u in s.pc && s.pc[u].InLock?
  {
    hide Inv, WakeOk, Still, HeldOk;
    InitInv(s0);
    WakeRuns(s0, acts, s);
    InvRuns(s0, acts, s);
    assert HeldOk(s0) by { InitHeld(s0); }
    HeldRuns(s0, acts, s);
    StillFree(s);
    if t :| t in s.pc && s.pc[t].Parked? {
      var u := SomeoneInside(s, t);
    }
  }

  lemma InitHeld(s: State)
    requires Init(s)
    ensures HeldOk(s)
  {
  }

  /** A thread that is parked while nothing moves waits for somebody inside. */
  lemma SomeoneInside(s: State, t: Tid) returns (u: Tid)
    requires Inv(s) && WakeOk(s) && t in s.pc && s.pc[t].Parked?
    requires forall v :: v in s.pc ==> Returned(s.pc[v]) || (s.pc[v].Parked? && v in s.sh.parked)
    ensures u in s.pc && s.pc[u].InLock?
  {
    hide MutexOk, QueueOk, WaitersOk;
    NobodyPending(s);
    assert t in s.sh.queue || t in s.sh.flagged;
    if s.sh.writerLocked {
      u :| u in s.pc && OwnsWrite(s.pc[u]);
    } else {
      assert Readers(s) != {};
      u :| u in Readers(s);
    }
  }

  lemma NobodyPending(s: State)
    requires Inv(s) && WakeOk(s)
    requires forall v :: v in s.pc ==> Returned(s.pc[v]) || (s.pc[v].Parked? && v in s.sh.parked)
    ensures s.sh.flagged == {} && forall v :: !Pending(s, v)
  {
    hide MutexOk, OwnersOk, WaitersOk;
    forall v | v in s.pc && s.pc[v].Parked? ensures v !in s.sh.flagged { ParkedUnseen(s, v); }
  }

  lemma ParkedUnseen(s: State, t: Tid)
    requires t in s.pc && s.pc[t].Parked?
    requires forall v :: v in s.pc ==> Returned(s.pc[v]) || (s.pc[v].Parked? && v in s.sh.parked)
    ensures !WillSee(s, t)
  {
  }

  // ---- A lost wakeup -------------------------------------------------------

  /** Threads 1, 2 and 3. */
  function Three(h: Shared, p1: Pc, p2: Pc, p3: Pc): State { State(h, map[1 := p1, 2 := p2, 3 := p3]) }

  /** The lock with `n` readers, the given waiters and flags, and both mutexes free. */
  function Lk(n: int, queue: seq<Tid>, flagged: set<Tid>): Shared { Shared(true, true, n, false, queue, flagged, {}) }

  lemma {:induction false} RunsSnoc(s0: State, acts: seq<Action>, s: State, a: Action)
    requires Runs(s0, acts, s) && Enabled(s, a)
    ensures Runs(s0, acts + [a], Next(s, a))
    decreases |acts|
  {
    hide Enabled, Next;
    if acts == [] {
      assert [a][1..] == [] && acts + [a] == [a];
    } else {
      RunsSnoc(Next(s0, acts[0]), acts[1..], s, a);
      assert (acts + [a])[1..] == acts[1..] + [a];
    }
  }

  /** One step of one of the three threads, seen from its own place. */
  lemma Do(s0: State, acts: seq<Action>, h: Shared, p1: Pc, p2: Pc, p3: Pc, a: Action) returns (acts': seq<Action>)
    requires Runs(s0, acts, Three(h, p1, p2, p3)) && 1 <= a.t <= 3
    requires CanMove(h, a, if a.t == 1 then p1 else if a.t == 2 then p2 else p3)
    ensures a.t == 1 ==> Runs(s0, acts', Three(Move(h, a, p1).0, Move(h, a, p1).1, p2, p3))
    ensures a.t == 2 ==> Runs(s0, acts', Three(Move(h, a, p2).0, p1, Move(h, a, p2).1, p3))
    ensures a.t == 3 ==> Runs(s0, acts', Three(Move(h, a, p3).0, p1, p2, Move(h, a, p3).1))
  {
    hide Move, CanMove, Runs;
    var s := Three(h, p1, p2, p3);
    RunsSnoc(s0, acts, s, a);
    acts' := acts + [a];
    var m := Move(h, a, s.pc[a.t]);
    assert Next(s, a) == State(m.0, s.pc[a.t := m.1]);
    if a.t == 1 {
      assert s.pc[1 := m.1] == map[1 := m.1, 2 := p2, 3 := p3];
    } else if a.t == 2 {
      assert s.pc[2 := m.1] == map[1 := p1, 2 := m.1, 3 := p3];
    } else {
      assert s.pc[3 := m.1] == map[1 := p1, 2 := p2, 3 := m.1];
    }
  }

  lemma ReaderEnters(s0: State) returns (acts: seq<Action>)
    requires s0 == Three(Lk(0, [], {}), Idle, Idle, Idle)
    ensures Runs(s0, acts, Three(Lk(1, [], {}), InLock(Reader), Idle, Idle))
  {
    assert Runs(s0, [], s0);
    hide Runs, Three;
    var h := Lk(0, [], {});
    acts := Do(s0, [], h, Idle, Idle, Idle, Lock(1, Reader));
    acts := Do(s0, acts, h, WantLock(Reader), Idle, Idle, Go(1));
    acts := Do(s0, acts, h.(mFree := false), Checking(Reader, false), Idle, Idle, Go(1));
    acts := Do(s0, acts, h.(mFree := false, count := 1), Acquired(Reader), Idle, Idle, Go(1));
  }

  /** Writer 2 queues up, releases everything and finds its flag down. */
  lemma SecondTests(s0: State, acts: seq<Action>) returns (acts': seq<Action>)
    requires Runs(s0, acts, Three(Lk(1, [], {}), InLock(Reader), Idle, Idle))
    ensures Runs(s0, acts', Three(Lk(1, [2], {}), InLock(Reader), Trading(Writer), Idle))
  {
    hide Runs, Three;
    var r, h, h' := InLock(Reader), Lk(1, [], {}), Lk(1, [2], {});
    acts' := Do(s0, acts, h, r, Idle, Idle, Lock(2, Writer));
    acts' := Do(s0, acts', h, r, WantLock(Writer), Idle, Go(2));
    acts' := Do(s0, acts', h.(mFree := false), r, Checking(Writer, false), Idle, Go(2));
    acts' := Do(s0, acts', h.(mFree := false), r, WantCv(Writer), Idle, Go(2));
    assert [] + [2] == [2];
    acts' := Do(s0, acts', h'.(mFree := false, cvFree := false), r, Enqueued(Writer), Idle, Go(2));
    acts' := Do(s0, acts', h'.(cvFree := false), r, Released(Writer), Idle, Go(2));
    acts' := Do(s0, acts', h', r, Testing(Writer), Idle, Go(2));
  }

  /** Writer 3 queues up behind it. */
  lemma ThirdQueues(s0: State, acts: seq<Action>) returns (acts': seq<Action>)
    requires Runs(s0, acts, Three(Lk(1, [2], {}), InLock(Reader), Trading(Writer), Idle))
    ensures Runs(s0, acts', Three(Lk(1, [2, 3], {}), InLock(Reader), Trading(Writer), Testing(Writer)))
  {
    hide Runs, Three;
    var r, w, h, h' := InLock(Reader), Trading(Writer), Lk(1, [2], {}), Lk(1, [2, 3], {});
    acts' := Do(s0, acts, h, r, w, Idle, Lock(3, Writer));
    acts' := Do(s0, acts', h, r, w, WantLock(Writer), Go(3));
    acts' := Do(s0, acts', h.(mFree := false), r, w, Checking(Writer, false), Go(3));
    acts' := Do(s0, acts', h.(mFree := false), r, w, WantCv(Writer), Go(3));
    assert [2] + [3] == [2, 3];
    acts' := Do(s0, acts', h'.(mFree := false, cvFree := false), r, w, Enqueued(Writer), Go(3));
    acts' := Do(s0, acts', h'.(cvFree := false), r, w, Released(Writer), Go(3));
  }

  /** The reader gives up the lock and finds that it was the last. */
  lemma ReaderLeaves(s0: State, acts: seq<Action>) returns (acts': seq<Action>)
    requires Runs(s0, acts, Three(Lk(1, [2, 3], {}), InLock(Reader), Trading(Writer), Testing(Writer)))
    ensures Runs(s0, acts', Three(Lk(0, [2, 3], {}).(mFree := false), WantSignal, Trading(Writer), Testing(Writer)))
  {
    hide Runs, Three;
    var w, v, h := Trading(Writer), Testing(Writer), Lk(1, [2, 3], {});
    acts' := Do(s0, acts, h, InLock(Reader), w, v, Unlock(1));
    acts' := Do(s0, acts', h, WantUnlock(Reader), w, v, Go(1));
    acts' := Do(s0, acts', h.(mFree := false), Unlocking(Reader), w, v, Go(1));
  }

  /** It signals writer 2. */
  lemma ReaderSignals(s0: State, acts: seq<Action>) returns (acts': seq<Action>)
    requires Runs(s0, acts, Three(Lk(0, [2, 3], {}).(mFree := false), WantSignal, Trading(Writer), Testing(Writer)))
    ensures Runs(s0, acts', Three(Lk(0, [3], {2}), Idle, Trading(Writer), Testing(Writer)))
  {
    hide Runs, Three;
    var w, v, h := Trading(Writer), Testing(Writer), Lk(0, [2, 3], {});
    acts' := Do(s0, acts, h.(mFree := false), WantSignal, w, v, Go(1));
    acts' := Do(s0, acts', h.(mFree := false, cvFree := false), Signalling, w, v, Go(1));
    assert [2, 3][1..] == [3] && {} + {2} == {2} && {} - {2} == {};
    acts' := Do(s0, acts', Lk(0, [3], {2}).(mFree := false, cvFree := false), Rousing(2), w, v, Go(1));
    acts' := Do(s0, acts', Lk(0, [3], {2}).(mFree := false), Finishing(Leave), w, v, Go(1));
  }

  /**
    A run that loses a wakeup: in the end the lock is free and writer 3 waits in the queue, but no
    wakeup is pending, and writer 2 has lost its flag for good.
  */
  lemma LostWakeup() returns (s0: State, acts: seq<Action>, s: State)
    ensures Init(s0) && Runs(s0, acts, s) && s.sh.queue == [3] && !s.sh.writerLocked && s.sh.count == 0
    ensures !(exists t :: Pending(s, t)) && Stranded(s, 2)
  {
    hide Runs;
    s0 := Three(Lk(0, [], {}), Idle, Idle, Idle);
    s := Three(Lk(0, [3], {}), Idle, Testing(Writer), Testing(Writer));
    acts := ReaderEnters(s0);
    acts := SecondTests(s0, acts);
    acts := ThirdQueues(s0, acts);
    acts := ReaderLeaves(s0, acts);
    acts := ReaderSignals(s0, acts);
    acts := Do(s0, acts, Lk(0, [3], {2}), Idle, Trading(Writer), Testing(Writer), Go(2));
    assert {2} - {2} == {};
  }
}
