/**
  The counting semaphore and its client, the status queue of a process, as a step system.
  Waiters run `pcb_wait_on_status`; vanishing children run `pcb_signal_status`, with the
  parent's lock held or, when the parent is gone, on init's queue without any lock.  A step is
  one exchange on a mutex word, one update of the semaphore made while holding its mutex, or
  one half of an operation on the status queue: what it reads of the list, or what it writes.
  So an operation made without the lock may come between the two halves of another.

  A sleeper passes only when its flag is set: waking for another reason changes nothing.  The
  exchange in `thr_deschedule` may take the flag down unseen; the sleeper then sleeps on, and
  its grant is lost.
*/
module Semaphore {
  import opened Lists

  type Tid = nat

  datatype Pc =
    | Idle
    | WantWait                                // sem_wait: spinning on sem.m
    | Waiting                                 // holds sem.m, about to decrement
    | WillQueue                               // holds sem.m, no resource, about to queue
    | QueuedHere                              // holds sem.m, queued
    | Asleep                                  // waiting for its flag
    | Passing                                 // holds sem.m, got a resource
    | Passed                                  // sem_wait has returned; spinning on pcb.m
    | Collecting                              // holds pcb.m, about to look at the status list
    | Removing(single: bool)                  // holds pcb.m, saw whether the head is also the tail
    | Collected(got: Report)                  // holds pcb.m, has taken a report off the list
    | Stuck                                   // found the list empty and returned with pcb.m held
    | Crashed(locked: bool)                   // followed a null pointer
    | WantPcb(status: Report)                 // vanish: spinning on the parent's lock
    | Posting(status: Report, locked: bool)   // about to look at the end of the list
    | Linking(n: Item, seen: int, locked: bool) // has seen the tail, about to link its node
    | WantSignal(locked: bool)                // sem_signal: spinning on sem.m
    | Signalling(locked: bool)                // holds sem.m, about to increment
    | WillWake(locked: bool)                  // holds sem.m, somebody waits
    | Signalled(locked: bool)                 // holds sem.m
    | Leaving                                 // holds pcb.m

  /** What a vanished child leaves: its exit status and the number of its first thread. */
  datatype Report = Report(status: int, tid: int)

  /** A node of the status queue, named by a number, and what is in it. */
  datatype Item = Item(id: int, status: Report)

  const NULL: int := -1

  /** The status queue: the nodes reached from the head, the tail pointer and the size field. */
  datatype StatusList = StatusList(chain: seq<Item>, tail: int, size: int)

  /** Where node `id` sits in the chain, or its length. */
  function Spot(chain: seq<Item>, id: int): (k: nat)
    ensures k <= |chain| && (k < |chain| ==> chain[k].id == id)
    ensures forall j :: 0 <= j < k ==> chain[j].id != id
  {
    if chain == [] || chain[0].id == id then 0 else 1 + Spot(chain[1..], id)
  }

  /** What a post writes: it trusts the tail it has seen, or that the list was empty. */
  function Linked(l: StatusList, n: Item, seen: int): StatusList {
    if seen == NULL then StatusList([n], n.id, l.size + 1)
    else
      var k := Spot(l.chain, seen);
      StatusList(if k < |l.chain| then l.chain[..k + 1] + [n] else l.chain, n.id, l.size + 1)
  }

  /** What a collection writes: it trusts what it has seen of head and tail. */
  function Shortened(l: StatusList, single: bool): StatusList
    requires l.chain != []
  {
    StatusList(l.chain[1..], if single then NULL else l.tail, l.size - 1)
  }

  /** The semaphore, the status queue, and counters of what has happened so far. */
  datatype Shared = Shared(
    mFree: bool, pFree: bool, count: int, queue: seq<Tid>, flagged: set<Tid>, list: StatusList, made: nat,
    entered: nat, granted: nat, passed: nat, lost: nat, signals: nat, posted: nat, taken: nat)

  datatype State = State(sh: Shared, pc: map<Tid, Pc>)

  datatype Action = Wait(t: Tid) | Vanish(t: Tid, status: Report) | Orphan(t: Tid, status: Report) | Go(t: Tid) | Lose(t: Tid)

  predicate HoldsM(p: Pc) {
    p.Waiting? || p.WillQueue? || p.QueuedHere? || p.Passing? || p.Signalling? || p.WillWake? || p.Signalled?
  }

  predicate HoldsP(p: Pc) {
    || p.Collecting? || p.Removing? || p.Collected? || p.Stuck? || p.Leaving?
    || ((p.Crashed? || p.Posting? || p.Linking? || p.WantSignal? || p.Signalling? || p.WillWake? || p.Signalled?) && p.locked)
  }

  predicate CanMove(h: Shared, a: Action, p: Pc) {
    match a
    case Wait(_) => p.Idle?
    case Vanish(_, _) => p.Idle?
    case Orphan(_, _) => p.Idle?
    case Lose(t) => p.Asleep? && t in h.flagged
    case Go(t) =>
      match p
      case Idle => false
      case Stuck => false
      case Crashed(_) => false
      case WantWait => h.mFree
      case WantSignal(_) => h.mFree
      case Passed => h.pFree
      case WantPcb(_) => h.pFree
      case Asleep => t in h.flagged
      case _ => true
  }

  function Move(h: Shared, a: Action, p: Pc): (Shared, Pc)
    requires CanMove(h, a, p)
  {
    match a
    case Wait(_) => (h, WantWait)
    case Vanish(_, x) => (h, WantPcb(x))
    case Orphan(_, x) => (h, Posting(x, false))
    case Lose(t) => (h.(flagged := h.flagged - {t}, lost := h.lost + 1), p)
    case Go(t) => Advance(h, t, p)
  }

  function Advance(h: Shared, t: Tid, p: Pc): (Shared, Pc) {
    match p
    case WantWait => (h.(mFree := false), Waiting)
    case Waiting =>
      if h.count - 1 < 0 then (h.(count := h.count - 1, entered := h.entered + 1), WillQueue)
      else (h.(count := h.count - 1, entered := h.entered + 1, granted := h.granted + 1), Passing)
    case WillQueue => (h.(queue := h.queue + [t]), QueuedHere)
    case QueuedHere => (h.(mFree := true), Asleep)
    case Asleep => (h.(flagged := h.flagged - {t}, passed := h.passed + 1), Passed)
    case Passing => (h.(mFree := true, passed := h.passed + 1), Passed)
    case Passed => (h.(pFree := false), Collecting)
    case Collecting =>
      if h.list.size == 0 then (h, Stuck)
      else if h.list.chain == [] then (h, Crashed(true))
      else (h, Removing(h.list.chain[0].id == h.list.tail))
    case Removing(single) =>
      if h.list.chain == [] then (h, Crashed(true))
      else (h.(list := Shortened(h.list, single), taken := h.taken + 1), Collected(h.list.chain[0].status))
    case Collected(_) => (h.(pFree := true), Idle)
    case WantPcb(x) => (h.(pFree := false), Posting(x, true))
    case Posting(x, l) =>
      if h.list.chain != [] && h.list.tail == NULL then (h, Crashed(l))
      else (h.(made := h.made + 1), Linking(Item(h.made, x), if h.list.chain == [] then NULL else h.list.tail, l))
    case Linking(n, seen, l) => (h.(list := Linked(h.list, n, seen), posted := h.posted + 1), WantSignal(l))
    case WantSignal(l) => (h.(mFree := false), Signalling(l))
    case Signalling(l) => (h.(count := h.count + 1, signals := h.signals + 1), if h.count + 1 <= 0 then WillWake(l) else Signalled(l))
    case WillWake(l) =>
      if h.queue == [] then (h, Signalled(l))
      else (h.(queue := h.queue[1..], flagged := h.flagged + {h.queue[0]}, granted := h.granted + 1), Signalled(l))
    case Signalled(l) => (h.(mFree := true), if l then Leaving else Idle)
    case Leaving => (h.(pFree := true), Idle)
    case _ => (h, p)
  }

  predicate Enabled(s: State, a: Action) { a.t in s.pc && CanMove(s.sh, a, s.pc[a.t]) }

  function Next(s: State, a: Action): State
    requires Enabled(s, a)
  {
    var (h, p) := Move(s.sh, a, s.pc[a.t]);
    State(h, s.pc[a.t := p])
  }

  // ---- Counting threads ----------------------------------------------------

  function Where(pc: map<Tid, Pc>, f: Pc -> bool): set<Tid> { set t | t in pc && f(pc[t]) }

  function One(b: bool): nat { if b then 1 else 0 }

  lemma SizeAt(w: set<Tid>, t: Tid)
    ensures |w| == |w - {t}| + One(t in w)
  {
    if t in w { assert w == (w - {t}) + {t}; } else { assert w == w - {t}; }
  }

  lemma WhereAt(pc: map<Tid, Pc>, t: Tid, p: Pc, f: Pc -> bool)
    requires t in pc
    ensures |Where(pc[t := p], f)| == |Where(pc, f)| - One(f(pc[t])) + One(f(p))
    ensures f(pc[t]) ==> |Where(pc, f)| > 0
  {
    var w, w' := Where(pc, f), Where(pc[t := p], f);
    SizeAt(w, t);
    SizeAt(w', t);
    assert w' - {t} == w - {t};
  }

  function AtWillQueue(): Pc -> bool { (p: Pc) => p.WillQueue? }
  function AtWillWake(): Pc -> bool { (p: Pc) => p.WillWake? }
  function AtPassing(): Pc -> bool { (p: Pc) => p.Passing? }
  function AtPosted(): Pc -> bool { (p: Pc) => p.WantSignal? || p.Signalling? }
  function AtDue(): Pc -> bool { (p: Pc) => p.Passed? || p.Collecting? || p.Removing? }

  // ---- Invariant -----------------------------------------------------------

  ghost predicate MutexOk(s: State) {
    && (forall t, u :: t in s.pc && u in s.pc && HoldsM(s.pc[t]) && HoldsM(s.pc[u]) ==> t == u)
    && (forall t, u :: t in s.pc && u in s.pc && HoldsP(s.pc[t]) && HoldsP(s.pc[u]) ==> t == u)
    && (s.sh.mFree ==> forall t :: t in s.pc ==> !HoldsM(s.pc[t]))
    && (s.sh.pFree ==> forall t :: t in s.pc ==> !HoldsP(s.pc[t]))
  }

  predicate Queued(s: State, t: Tid) {
    t in s.pc && (s.pc[t].QueuedHere? || (s.pc[t].Asleep? && t !in s.sh.flagged))
  }

  ghost predicate QueueOk(s: State) {
    && Distinct(s.sh.queue) && (forall t :: t in s.sh.queue ==> Queued(s, t))
    && (forall t :: t in s.pc && s.pc[t].QueuedHere? ==> t in s.sh.queue)
    && (forall t :: t in s.sh.flagged ==> t in s.pc && s.pc[t].Asleep?)
  }

  function Deficit(count: int): nat { if count < 0 then -count else 0 }

  /** The books of the semaphore, started with `c0` resources. */
  ghost predicate BooksOk(c0: nat, s: State) {
    var h := s.sh;
    && |h.queue| + |Where(s.pc, AtWillQueue())| == Deficit(h.count) + |Where(s.pc, AtWillWake())|
    && h.count == c0 + h.signals - h.entered
    && h.granted + |h.queue| + |Where(s.pc, AtWillQueue())| == h.entered
    && h.passed + |Where(s.pc, AtPassing())| + |h.flagged| + h.lost == h.granted
  }

  function TailOf(l: StatusList): int { if l.chain == [] then NULL else l.chain[|l.chain| - 1].id }

  /** Tail pointer and size field fit the chain, whose nodes are all different. */
  ghost predicate ListOk(h: Shared) {
    && h.list.tail == TailOf(h.list) && h.list.size == |h.list.chain|
    && (forall k :: 0 <= k < |h.list.chain| ==> 0 <= h.list.chain[k].id < h.made)
    && (forall j, k :: 0 <= j < k < |h.list.chain| ==> h.list.chain[j].id != h.list.chain[k].id)
  }

  /** The node a poster is about to link is its own, made before the next one. */
  ghost predicate NodesOk(s: State) {
    && (forall t :: t in s.pc && s.pc[t].Linking? ==> 0 <= s.pc[t].n.id < s.sh.made && s.pc[t].seen != s.pc[t].n.id)
    && (forall t, k :: t in s.pc && s.pc[t].Linking? && 0 <= k < |s.sh.list.chain| ==> s.sh.list.chain[k].id != s.pc[t].n.id)
    && (forall t, u :: t in s.pc && u in s.pc && t != u && s.pc[t].Linking? && s.pc[u].Linking? ==> s.pc[t].n.id != s.pc[u].n.id)
  }

  /** The books of the status queue: the list is in order, nobody has failed on it, and what was posted is taken or there. */
  ghost predicate StatusOk(s: State) { ListOk(s.sh) && NodesOk(s) && NoneFailed(s) && Balanced(s) }

  ghost predicate NoneFailed(s: State) { forall t :: t in s.pc ==> !s.pc[t].Stuck? && !s.pc[t].Crashed? }

  ghost predicate Balanced(s: State) {
    var h := s.sh;
    && h.signals + |Where(s.pc, AtPosted())| == h.posted
    && h.taken + |Where(s.pc, AtDue())| == h.passed
    && h.taken + |h.list.chain| == h.posted
  }

  /** What the thread at `p` has seen of the list is still so. */
  predicate Tidy(h: Shared, p: Pc) {
    && (p.Linking? ==> p.seen == TailOf(h.list))
    && (p.Removing? ==> (p.single <==> |h.list.chain| == 1))
  }

  ghost predicate Inv(c0: nat, s: State) { MutexOk(s) && QueueOk(s) && BooksOk(c0, s) }

  // ---- Preservation --------------------------------------------------------

  lemma SemEffect(h: Shared, a: Action, p: Pc)
    requires CanMove(h, a, p)
    ensures var (h', p') := Move(h, a, p);
      && (HoldsM(p') ==> if HoldsM(p) then h'.mFree == h.mFree else h.mFree && !h'.mFree)
      && (!HoldsM(p') ==> if HoldsM(p) then h'.mFree else h'.mFree == h.mFree)
  {
    hide Linked, Shortened;
  }

  lemma PcbEffect(h: Shared, a: Action, p: Pc)
    requires CanMove(h, a, p)
    ensures var (h', p') := Move(h, a, p);
      && (HoldsP(p') ==> if HoldsP(p) then h'.pFree == h.pFree else h.pFree && !h'.pFree)
      && (!HoldsP(p') ==> if HoldsP(p) then h'.pFree else h'.pFree == h.pFree)
  {
    hide Linked, Shortened;
  }

  lemma MutexStep(s: State, a: Action)
    requires MutexOk(s) && Enabled(s, a)
    ensures MutexOk(Next(s, a))
  {
    hide Move, CanMove, HoldsM, HoldsP;
    SemEffect(s.sh, a, s.pc[a.t]);
    PcbEffect(s.sh, a, s.pc[a.t]);
  }

  predicate Dequeues(h: Shared, a: Action, p: Pc) { a.Go? && p.WillWake? && h.queue != [] }

  lemma QueueEffect(h: Shared, a: Action, p: Pc)
    requires CanMove(h, a, p)
    ensures var (h', p') := Move(h, a, p);
      && (p.WillQueue? ==> h'.queue == h.queue + [a.t] && p'.QueuedHere?)
      && (Dequeues(h, a, p) ==> h'.queue == h.queue[1..] && h'.flagged == h.flagged + {h.queue[0]})
      && (!p.WillQueue? && !Dequeues(h, a, p) ==> h'.queue == h.queue)
      && (p.Asleep? ==> h'.flagged == h.flagged - {a.t} && a.t in h.flagged && (p'.Passed? || p' == p))
      && (!p.Asleep? && !Dequeues(h, a, p) ==> h'.flagged == h.flagged)
      && (p.QueuedHere? ==> p'.Asleep?) && (p'.Asleep? ==> p.QueuedHere? || p.Asleep?) && (p'.QueuedHere? ==> p.WillQueue?)
  {
    hide Linked, Shortened;
  }

  lemma HeadSleeps(s: State, a: Action)
    requires QueueOk(s) && MutexOk(s) && Enabled(s, a) && Dequeues(s.sh, a, s.pc[a.t])
    ensures var h := s.sh.queue[0]; h in s.pc && s.pc[h].Asleep? && h !in s.sh.flagged && h != a.t
  {
    var h := s.sh.queue[0];
    assert h in s.sh.queue && Queued(s, h);
    assert HoldsM(s.pc[a.t]) && h != a.t;
    assert !HoldsM(s.pc[h]);
  }

  lemma QueueStep(s: State, a: Action)
    requires QueueOk(s) && MutexOk(s) && Enabled(s, a)
    ensures QueueOk(Next(s, a))
  {
    hide MutexOk, HoldsM, HoldsP, Move, CanMove, Distinct;
    var s', t, p := Next(s, a), a.t, s.pc[a.t];
    QueueEffect(s.sh, a, p);
    if Dequeues(s.sh, a, p) { HeadSleeps(s, a); }
    if p.WillQueue? {
      assert t !in s.sh.queue by { assert !Queued(s, t); }
      AppendDistinct(s.sh.queue, t);
      assert forall u :: u in s'.sh.queue <==> u in s.sh.queue || u == t;
    } else if Dequeues(s.sh, a, p) {
      HeadTail(s.sh.queue);
    }
  }

  /** One step keeps the line about the queue, the moving thread included. */
  lemma DeficitEffect(h: Shared, a: Action, p: Pc)
    requires CanMove(h, a, p) && (p.WillWake? ==> h.queue != [] && h.queue[0] !in h.flagged)
    ensures var (h', p') := Move(h, a, p);
      |h'.queue| + One(p'.WillQueue?) - Deficit(h'.count) - One(p'.WillWake?)
         == |h.queue| + One(p.WillQueue?) - Deficit(h.count) - One(p.WillWake?)
  {
    hide Linked, Shortened;
  }

  /** One step keeps the line about the count. */
  lemma CountEffect(h: Shared, a: Action, p: Pc)
    requires CanMove(h, a, p)
    ensures var h' := Move(h, a, p).0; h'.count - h'.signals + h'.entered == h.count - h.signals + h.entered
  {
    hide Linked, Shortened;
  }

  lemma OnlyGo(h: Shared, a: Action, p: Pc)
    requires CanMove(h, a, p) && p.WillWake?
    ensures a.Go?
  {
  }

  /** How many flags are up after a step. */
  lemma FlagCount(h: Shared, a: Action, p: Pc)
    requires CanMove(h, a, p) && (p.WillWake? ==> h.queue != [] && h.queue[0] !in h.flagged)
    ensures |Move(h, a, p).0.flagged| == |h.flagged| - One(p.Asleep?) + One(p.WillWake?)
  {
    hide Linked, Shortened;
    if p.Asleep? {
      SizeAt(h.flagged, a.t);
    } else if p.WillWake? {
      SizeAt(h.flagged + {h.queue[0]}, h.queue[0]);
      assert (h.flagged + {h.queue[0]}) - {h.queue[0]} == h.flagged;
    }
  }

  /** One step keeps the lines about grants. */
  lemma GrantEffect(h: Shared, a: Action, p: Pc)
    requires CanMove(h, a, p) && (p.WillWake? ==> h.queue != [] && h.queue[0] !in h.flagged)
    ensures var (h', p') := Move(h, a, p);
      && h'.granted + |h'.queue| + One(p'.WillQueue?) - h'.entered == h.granted + |h.queue| + One(p.WillQueue?) - h.entered
      && h'.passed + One(p'.Passing?) + |h'.flagged| + h'.lost - h'.granted == h.passed + One(p.Passing?) + |h.flagged| + h.lost - h.granted
  {
    hide Linked, Shortened;
    FlagCount(h, a, p);
  }

  /** A signaller that found the count at most zero finds somebody to wake. */
  lemma WakerFindsSleeper(c0: nat, s: State, t: Tid)
    requires Inv(c0, s) && t in s.pc && s.pc[t].WillWake?
    ensures s.sh.queue != []
  {
    WhereAt(s.pc, t, Idle, AtWillWake());
    forall u | u in s.pc ensures !s.pc[u].WillQueue? {
      if s.pc[u].WillQueue? { assert HoldsM(s.pc[u]) && HoldsM(s.pc[t]); }
    }
    assert Where(s.pc, AtWillQueue()) == {};
  }

  lemma BooksStep(c0: nat, s: State, a: Action)
    requires Inv(c0, s) && Enabled(s, a)
    ensures BooksOk(c0, Next(s, a))
  {
    hide Move, CanMove;
    var s', t, p := Next(s, a), a.t, s.pc[a.t];
    var p' := s'.pc[t];
    if p.WillWake? {
      WakerFindsSleeper(c0, s, t);
      assert a.Go? by { OnlyGo(s.sh, a, p); }
      HeadSleeps(s, a);
    }
    DeficitEffect(s.sh, a, p);
    CountEffect(s.sh, a, p);
    GrantEffect(s.sh, a, p);
    WhereAt(s.pc, t, p', AtWillQueue());
    WhereAt(s.pc, t, p', AtWillWake());
    WhereAt(s.pc, t, p', AtPassing());
  }

  lemma PostEffect(h: Shared, a: Action, p: Pc)
    requires CanMove(h, a, p)
    ensures var (h', p') := Move(h, a, p);
      h'.signals + One(p'.WantSignal? || p'.Signalling?) - h'.posted == h.signals + One(p.WantSignal? || p.Signalling?) - h.posted
  {
    hide Linked, Shortened;
  }

  /** How one step changes what is due, if the collector finds something. */
  lemma DueEffect(h: Shared, a: Action, p: Pc)
    requires CanMove(h, a, p) && (p.Collecting? ==> h.list.size != 0) && (p.Collecting? || p.Removing? ==> h.list.chain != [])
    ensures var (h', p') := Move(h, a, p);
      h'.taken + One(AtDue()(p')) - h'.passed == h.taken + One(AtDue()(p)) - h.passed
  {
    hide Linked, Shortened;
  }

  predicate TailKnown(l: StatusList) { l.tail == TailOf(l) && (l.chain != [] ==> l.tail != NULL) }

  /** Only the second half of an operation changes the list. */
  lemma ListEffect(h: Shared, a: Action, p: Pc)
    requires CanMove(h, a, p)
    ensures var (h', p') := Move(h, a, p);
      && (p.Linking? ==> h' == h.(list := Linked(h.list, p.n, p.seen), posted := h.posted + 1))
      && (p.Removing? && h.list.chain != [] ==> h' == h.(list := Shortened(h.list, p.single), taken := h.taken + 1))
      && (!p.Linking? && !p.Removing? ==> h'.list == h.list && h'.posted == h.posted && h'.taken == h.taken)
      && (p.Posting? && TailKnown(h.list) ==> p'.Linking? && p'.n.id == h.made && p'.seen == TailOf(h.list) && h'.made == h.made + 1)
      && (!p.Posting? ==> h'.made == h.made && !p'.Linking?)
      && (p'.Stuck? || p'.Crashed? ==> p.Collecting? || p.Removing? || p.Posting?)
  {
  }

  lemma SpotUnique(chain: seq<Item>, k: nat)
    requires k < |chain| && forall j, i :: 0 <= j < i < |chain| ==> chain[j].id != chain[i].id
    ensures Spot(chain, chain[k].id) == k
  {
    var m := Spot(chain, chain[k].id);
    assert m <= k;
  }

  /** A post that has seen the tail appends. */
  lemma LinkedAppends(h: Shared, n: Item)
    requires ListOk(h)
    ensures Linked(h.list, n, TailOf(h.list)).chain == h.list.chain + [n]
  {
    var c := h.list.chain;
    if c != [] {
      SpotUnique(c, |c| - 1);
      assert c[..|c|] == c;
    }
  }

  /** A post that has seen something else loses nodes, its own or others. */
  lemma LinkedLoses(h: Shared, n: Item, seen: int)
    requires ListOk(h) && seen != TailOf(h.list)
    ensures |Linked(h.list, n, seen).chain| <= |h.list.chain|
  {
    var k, c := Spot(h.list.chain, seen), h.list.chain;
    if seen != NULL && k < |c| { assert c[k].id == seen && k != |c| - 1; }
  }

  /** Linking a node leaves the list in order exactly when the tail is still the one that was seen. */
  lemma LinkedOk(h: Shared, n: Item, seen: int)
    requires ListOk(h) && 0 <= n.id < h.made && forall k :: 0 <= k < |h.list.chain| ==> h.list.chain[k].id != n.id
    ensures ListOk(h.(list := Linked(h.list, n, seen))) <==> seen == TailOf(h.list)
    ensures seen == TailOf(h.list) ==> Linked(h.list, n, seen).chain == h.list.chain + [n]
  {
    hide Spot;
    if seen == TailOf(h.list) { LinkedAppends(h, n); } else { LinkedLoses(h, n, seen); }
  }

  /** Taking the head leaves the list in order exactly when it is the tail as it was seen to be. */
  lemma ShortenedOk(h: Shared, single: bool)
    requires ListOk(h) && h.list.chain != []
    ensures ListOk(h.(list := Shortened(h.list, single))) <==> (single <==> |h.list.chain| == 1)
    ensures Shortened(h.list, single).chain == h.list.chain[1..]
  {
    var c := h.list.chain;
    if |c| > 1 { assert c[1..][|c| - 2] == c[|c| - 1]; }
  }

  /** A thread whose wait has completed finds a status: the empty-queue branch is unreachable. */
  lemma CollectorFindsStatus(s: State, t: Tid)
    requires Inv(0, s) && StatusOk(s) && t in s.pc && (s.pc[t].Collecting? || s.pc[t].Removing?)
    ensures s.sh.list.chain != [] && s.sh.list.size == |s.sh.list.chain|
  {
    WhereAt(s.pc, t, Idle, AtDue());
  }

  lemma NodesStep(s: State, a: Action)
    requires StatusOk(s) && Enabled(s, a) && Tidy(s.sh, s.pc[a.t]) && (s.pc[a.t].Removing? ==> s.sh.list.chain != [])
    ensures NodesOk(Next(s, a))
  {
    hide Move, CanMove, Linked, Shortened;
    var s', t, p, c := Next(s, a), a.t, s.pc[a.t], s.sh.list.chain;
    ListEffect(s.sh, a, p);
    if p.Linking? { LinkedOk(s.sh, p.n, p.seen); }
    if p.Removing? {
      ShortenedOk(s.sh, p.single);
      assert forall k :: 0 <= k < |c[1..]| ==> c[1..][k] == c[k + 1];
    }
  }

  /** With something there to find, nobody fails. */
  lemma SafeEffect(h: Shared, a: Action, p: Pc)
    requires CanMove(h, a, p) && !p.Stuck? && !p.Crashed? && TailKnown(h.list)
    requires (p.Collecting? ==> h.list.size != 0) && (p.Collecting? || p.Removing? ==> h.list.chain != [])
    ensures !Move(h, a, p).1.Stuck? && !Move(h, a, p).1.Crashed?
  {
    hide Linked, Shortened;
  }

  lemma ListStep(s: State, a: Action)
    requires StatusOk(s) && Enabled(s, a) && (s.pc[a.t].Removing? ==> s.sh.list.chain != [])
    ensures ListOk(Next(s, a).sh) <==> Tidy(s.sh, s.pc[a.t])
    ensures Tidy(s.sh, s.pc[a.t]) ==> Next(s, a).sh.taken + |Next(s, a).sh.list.chain| - Next(s, a).sh.posted == s.sh.taken + |s.sh.list.chain| - s.sh.posted
  {
    hide Move, CanMove, Linked, Shortened, Balanced, NoneFailed;
    var p := s.pc[a.t];
    ListEffect(s.sh, a, p);
    if p.Linking? { LinkedOk(s.sh, p.n, p.seen); }
    if p.Removing? { ShortenedOk(s.sh, p.single); }
  }

  lemma BalancedStep(s: State, a: Action)
    requires StatusOk(s) && Enabled(s, a) && Tidy(s.sh, s.pc[a.t])
    requires s.pc[a.t].Collecting? || s.pc[a.t].Removing? ==> s.sh.list.chain != [] && s.sh.list.size != 0
    ensures Balanced(Next(s, a)) && NoneFailed(Next(s, a))
  {
    hide Move, CanMove, Linked, Shortened, NodesOk, Tidy;
    var s', t, p := Next(s, a), a.t, s.pc[a.t];
    ListStep(s, a);
    SafeEffect(s.sh, a, p);
    PostEffect(s.sh, a, p);
    DueEffect(s.sh, a, p);
    WhereAt(s.pc, t, s'.pc[t], AtPosted());
    WhereAt(s.pc, t, s'.pc[t], AtDue());
  }

  /** The status books stay balanced if and only if what the step relies on is still so. */
  lemma StatusStep(s: State, a: Action)
    requires Inv(0, s) && StatusOk(s) && Enabled(s, a)
    ensures StatusOk(Next(s, a)) <==> Tidy(s.sh, s.pc[a.t])
  {
    hide Inv, ListOk, NodesOk, NoneFailed, Balanced, Next, Tidy;
    if s.pc[a.t].Collecting? || s.pc[a.t].Removing? { CollectorFindsStatus(s, a.t); }
    ListStep(s, a);
    if Tidy(s.sh, s.pc[a.t]) {
      NodesStep(s, a);
      BalancedStep(s, a);
    }
  }

  // ---- Runs ----------------------------------------------------------------

  predicate Init(c0: nat, s: State) {
    && s.sh == Shared(true, true, c0, [], {}, StatusList([], NULL, 0), 0, 0, 0, 0, 0, 0, 0, 0)
    && forall t :: t in s.pc ==> s.pc[t].Idle?
  }

  predicate Runs(s: State, acts: seq<Action>, s': State)
    decreases |acts|
  {
    if acts == [] then s' == s
    else Enabled(s, acts[0]) && Runs(Next(s, acts[0]), acts[1..], s')
  }

  lemma InitInv(c0: nat, s: State)
    requires Init(c0, s)
    ensures Inv(c0, s) && StatusOk(s)
  {
    assert Where(s.pc, AtWillQueue()) == {} && Where(s.pc, AtWillWake()) == {} && Where(s.pc, AtPassing()) == {};
    assert Where(s.pc, AtPosted()) == {} && Where(s.pc, AtDue()) == {};
  }

  lemma {:induction false} InvRuns(c0: nat, s: State, acts: seq<Action>, s': State)
    requires Inv(c0, s) && Runs(s, acts, s')
    ensures Inv(c0, s')
    decreases |acts|
  {
    hide Inv, Next, Enabled;
    if acts != [] {
      InvStep(c0, s, acts[0]);
      InvRuns(c0, Next(s, acts[0]), acts[1..], s');
    }
  }

  /** No operation on the status list is overtaken between its two halves in a way that matters to it. */
  predicate TidyRun(s: State, acts: seq<Action>, s': State)
    decreases |acts|
  {
    if acts == [] then s' == s
    else Enabled(s, acts[0]) && Tidy(s.sh, s.pc[acts[0].t]) && TidyRun(Next(s, acts[0]), acts[1..], s')
  }

  lemma InvStep(c0: nat, s: State, a: Action)
    requires Inv(c0, s) && Enabled(s, a)
    ensures Inv(c0, Next(s, a))
  {
    hide MutexOk, QueueOk, BooksOk, Next;
    MutexStep(s, a);
    QueueStep(s, a);
    BooksStep(c0, s, a);
  }

  lemma {:induction false} StatusRuns(s: State, acts: seq<Action>, s': State)
    requires Inv(0, s) && StatusOk(s) && TidyRun(s, acts, s')
    ensures Inv(0, s') && StatusOk(s')
    decreases |acts|
  {
    hide Inv, StatusOk, Next, Enabled, Tidy;
    if acts != [] {
      InvStep(0, s, acts[0]);
      StatusStep(s, acts[0]);
      StatusRuns(Next(s, acts[0]), acts[1..], s');
    }
  }

  /**
    Semaphore safety in every interleaving: completed waits never exceed the initial count
    plus the signals, and with the mutex free the queue is exactly as long as the count is
    below zero.  The branch for an empty queue in `sem_signal` is never taken.
  */
  lemma Safety(c0: nat, s0: State, acts: seq<Action>, s: State)
    requires Init(c0, s0) && Runs(s0, acts, s)
    ensures s.sh.passed <= c0 + s.sh.signals
    ensures s.sh.mFree ==> |s.sh.queue| == Deficit(s.sh.count)
    ensures forall t :: t in s.pc && s.pc[t].WillWake? ==> s.sh.queue != []
  {
    InitInv(c0, s0);
    InvRuns(c0, s0, acts, s);
    forall t | t in s.pc && s.pc[t].WillWake? ensures s.sh.queue != [] { WakerFindsSleeper(c0, s, t); }
    AtMostOneWaker(s);
    if s.sh.mFree {
      assert forall t :: t in s.pc ==> !HoldsM(s.pc[t]);
      assert Where(s.pc, AtWillQueue()) == {} && Where(s.pc, AtWillWake()) == {};
    }
  }

  lemma AtMostOneWaker(s: State)
    requires MutexOk(s)
    ensures |Where(s.pc, AtWillWake())| <= 1
  {
    var w := Where(s.pc, AtWillWake());
    if w != {} {
      var t :| t in w;
      forall u | u in w ensures u == t { assert HoldsM(s.pc[u]) && HoldsM(s.pc[t]); }
      assert w == {t};
    }
  }

  /**
    As long as no operation on the status list is overtaken, every completed wait on a process
    finds a status: neither the branch for an empty list nor a null pointer is met.
  */
  lemma EveryWaitCollects(s0: State, acts: seq<Action>, s: State, t: Tid)
    requires Init(0, s0) && TidyRun(s0, acts, s) && t in s.pc
    ensures s.pc[t].Collecting? || s.pc[t].Removing? ==> s.sh.list.chain != [] && s.sh.list.size == |s.sh.list.chain|
    ensures !s.pc[t].Stuck? && !s.pc[t].Crashed?
  {
    hide Inv;
    InitInv(0, s0);
    StatusRuns(s0, acts, s);
    if s.pc[t].Collecting? || s.pc[t].Removing? { CollectorFindsStatus(s, t); }
  }

  // ---- What is collected ---------------------------------------------------

  /**
    A record of a run: what each thread was last told to report, how often anybody was told, the
    reports in the order in which they reached the list, and those taken off it in the order in which
    they were taken.
  */
  datatype Log = Log(told: map<Tid, Report>, calls: nat, posted: seq<Report>, taken: seq<Report>)

  const NO_LOG: Log := Log(map[], 0, [], [])

  function Noted(l: Log, s: State, a: Action): Log
    requires Enabled(s, a)
  {
    match a
    case Vanish(t, x) => l.(told := l.told[t := x], calls := l.calls + 1)
    case Orphan(t, x) => l.(told := l.told[t := x], calls := l.calls + 1)
    case Go(t) =>
      if s.pc[t].Linking? && t in l.told then l.(posted := l.posted + [l.told[t]])
      else if !s.pc[t].Collected? && Next(s, a).pc[t].Collected? then l.(taken := l.taken + [Next(s, a).pc[t].got])
      else l
    case _ => l
  }

  function LogOf(l: Log, s: State, acts: seq<Action>, s': State): Log
    requires Runs(s, acts, s')
    decreases |acts|
  {
    if acts == [] then l else LogOf(Noted(l, s, acts[0]), Next(s, acts[0]), acts[1..], s')
  }

  function Statuses(chain: seq<Item>): seq<Report> { seq(|chain|, i requires 0 <= i < |chain| => chain[i].status) }

  /** Has been told to report and has not done so yet. */
  predicate Owes(p: Pc) { p.WantPcb? || p.Posting? || p.Linking? }

  function Owed(p: Pc): Report
    requires Owes(p)
  {
    if p.Linking? then p.n.status else p.status
  }

  function AtOwing(): Pc -> bool { (p: Pc) => Owes(p) }

  /** Everybody still owes what it was told. */
  ghost predicate OwedOk(l: Log, s: State) {
    && (forall t :: t in s.pc && Owes(s.pc[t]) ==> t in l.told && l.told[t] == Owed(s.pc[t]))
    && l.calls == |l.posted| + |Where(s.pc, AtOwing())|
  }

  ghost predicate LogOk(l: Log, s: State) { OwedOk(l, s) && l.taken + Statuses(s.sh.list.chain) == l.posted }

  /** How one step changes what is owed and what is in the list. */
  lemma OwedEffect(h: Shared, a: Action, p: Pc)
    requires CanMove(h, a, p)
    ensures var (h', p') := Move(h, a, p);
      && (a.Vanish? || a.Orphan? ==> !Owes(p) && Owes(p') && Owed(p') == a.status)
      && (!a.Vanish? && !a.Orphan? && !p.Linking? && !p'.Crashed? ==> Owes(p) == Owes(p') && (Owes(p) ==> Owed(p) == Owed(p')))
      && (p.Linking? && a.Go? ==> !Owes(p'))
  {
    hide Linked, Shortened;
  }

  lemma TakenEffect(h: Shared, a: Action, p: Pc)
    requires CanMove(h, a, p) && (p.Removing? ==> h.list.chain != [])
    ensures var p' := Move(h, a, p).1;
      && (p.Removing? <==> !p.Collected? && p'.Collected?)
      && (p.Removing? ==> p'.got == h.list.chain[0].status)
  {
    hide Linked, Shortened;
  }

  /** A post that does not fail pays what is owed. */
  lemma OwedStep(l: Log, s: State, a: Action)
    requires OwedOk(l, s) && Enabled(s, a) && !Next(s, a).pc[a.t].Crashed?
    ensures OwedOk(Noted(l, s, a), Next(s, a))
  {
    hide Move, CanMove, Linked, Shortened;
    OwedEffect(s.sh, a, s.pc[a.t]);
    OnlyGoes(s.sh, a, s.pc[a.t]);
    WhereAt(s.pc, a.t, Next(s, a).pc[a.t], AtOwing());
  }

  /** What a step adds to the record. */
  lemma NotedParts(l: Log, s: State, a: Action)
    requires OwedOk(l, s) && Enabled(s, a) && (s.pc[a.t].Removing? ==> s.sh.list.chain != [])
    ensures var l', p := Noted(l, s, a), s.pc[a.t];
      && l'.posted == (if p.Linking? then l.posted + [p.n.status] else l.posted)
      && l'.taken == if p.Removing? then l.taken + [s.sh.list.chain[0].status] else l.taken
  {
    hide Move, CanMove, Linked, Shortened;
    OnlyGoes(s.sh, a, s.pc[a.t]);
    TakenEffect(s.sh, a, s.pc[a.t]);
  }

  lemma OnlyGoes(h: Shared, a: Action, p: Pc)
    requires CanMove(h, a, p)
    ensures p.Linking? || p.Removing? ==> a.Go?
  {
  }

  /** A tidy step posts at the end of the list and takes from its front. */
  lemma LogStep(l: Log, s: State, a: Action)
    requires Inv(0, s) && StatusOk(s) && LogOk(l, s) && Enabled(s, a) && Tidy(s.sh, s.pc[a.t])
    ensures LogOk(Noted(l, s, a), Next(s, a))
  {
    hide Move, CanMove, Linked, Shortened, Inv, Balanced, OwedOk, Noted, Statuses;
    var p, c := s.pc[a.t], s.sh.list.chain;
    StatusStep(s, a);
    if p.Removing? { CollectorFindsStatus(s, a.t); }
    OwedStep(l, s, a);
    NotedParts(l, s, a);
    ListEffect(s.sh, a, p);
    if p.Linking? {
      LinkedOk(s.sh, p.n, p.seen);
      StatusesSnoc(c, p.n);
    }
    if p.Removing? {
      ShortenedOk(s.sh, p.single);
      StatusesHead(c);
    }
  }

  lemma StatusesSnoc(c: seq<Item>, n: Item)
    ensures Statuses(c + [n]) == Statuses(c) + [n.status]
  {
  }

  lemma StatusesHead(c: seq<Item>)
    requires c != []
    ensures Statuses(c) == [c[0].status] + Statuses(c[1..])
  {
  }

  lemma {:induction false} LogRuns(l: Log, s: State, acts: seq<Action>, s': State)
    requires Inv(0, s) && StatusOk(s) && LogOk(l, s) && TidyRun(s, acts, s')
    ensures Runs(s, acts, s') && LogOk(LogOf(l, s, acts, s'), s')
    decreases |acts|
  {
    hide Inv, StatusOk, LogOk, Next, Enabled, Tidy, Noted;
    if acts != [] {
      InvStep(0, s, acts[0]);
      StatusStep(s, acts[0]);
      LogStep(l, s, acts[0]);
      LogRuns(Noted(l, s, acts[0]), Next(s, acts[0]), acts[1..], s');
    }
  }

  /**
    As long as no operation on the list is overtaken, what was collected, followed by what is in
    the list, is exactly what was posted, in that order: every report posted is the one its thread
    was told to make, and every one told is posted or still owed by a thread on its way.
  */
  lemma CollectedInOrder(s0: State, acts: seq<Action>, s: State)
    requires Init(0, s0) && TidyRun(s0, acts, s)
    ensures Runs(s0, acts, s)
    ensures var l := LogOf(NO_LOG, s0, acts, s);
      l.taken + Statuses(s.sh.list.chain) == l.posted && l.calls == |l.posted| + |Where(s.pc, AtOwing())|
  {
    hide Inv, StatusOk;
    InitInv(0, s0);
    assert Where(s0.pc, AtOwing()) == {};
    LogRuns(NO_LOG, s0, acts, s);
  }

  // ---- Who may overtake whom -----------------------------------------------

  /** After the first half of its operation a thread knows the list. */
  lemma SeesList(s: State, a: Action)
    requires StatusOk(s) && Enabled(s, a) && (s.pc[a.t].Posting? || s.pc[a.t].Collecting?)
    ensures Tidy(Next(s, a).sh, Next(s, a).pc[a.t])
  {
    hide Where;
    var c := s.sh.list.chain;
    if s.pc[a.t].Collecting? && |c| > 1 { assert c[0].id != c[|c| - 1].id; }
  }

  /** Another thread's step spoils that only if it is the second half of its own operation. */
  lemma OthersKeepTidy(s: State, a: Action, u: Tid)
    requires Enabled(s, a) && u in s.pc && u != a.t && Tidy(s.sh, s.pc[u])
    requires !s.pc[a.t].Linking? && !s.pc[a.t].Removing?
    ensures Tidy(Next(s, a).sh, Next(s, a).pc[u])
  {
    hide Move, CanMove;
    ListEffect(s.sh, a, s.pc[a.t]);
  }

  /** Everybody who works on the list holds the lock, and knows the list. */
  ghost predicate Serial(s: State) {
    forall t :: t in s.pc ==> Tidy(s.sh, s.pc[t]) && (s.pc[t].Posting? || s.pc[t].Linking? ==> s.pc[t].locked)
  }

  lemma LockedEffect(h: Shared, a: Action, p: Pc)
    requires CanMove(h, a, p) && !a.Orphan? && (p.Posting? || p.Linking? ==> p.locked)
    ensures var p' := Move(h, a, p).1;
      && (p'.Posting? || p'.Linking? ==> p'.locked)
      && (p'.Linking? ==> p.Posting?) && (p'.Removing? ==> p.Collecting?)
  {
    hide Linked, Shortened;
  }

  lemma SerialStep(s: State, a: Action)
    requires MutexOk(s) && StatusOk(s) && Serial(s) && Enabled(s, a) && !a.Orphan?
    ensures Serial(Next(s, a))
  {
    hide Move, CanMove, StatusOk, Tidy;
    var s', t := Next(s, a), a.t;
    LockedEffect(s.sh, a, s.pc[t]);
    forall u | u in s'.pc ensures Tidy(s'.sh, s'.pc[u]) {
      if u == t {
        if s.pc[t].Posting? || s.pc[t].Collecting? { SeesList(s, a); } else { TidyElsewhere(s'.sh, s'.pc[t]); }
      } else if s.pc[t].Linking? || s.pc[t].Removing? {
        assert HoldsP(s.pc[t]) && !HoldsP(s.pc[u]);
        TidyElsewhere(s'.sh, s'.pc[u]);
      } else {
        OthersKeepTidy(s, a, u);
      }
    }
  }

  lemma TidyElsewhere(h: Shared, p: Pc)
    requires !p.Linking? && !p.Removing?
    ensures Tidy(h, p)
  {
  }

  /** Without orphans nobody is overtaken. */
  lemma {:induction false} LockedRuns(s: State, acts: seq<Action>, s': State)
    requires Inv(0, s) && StatusOk(s) && Serial(s) && Runs(s, acts, s') && forall i :: 0 <= i < |acts| ==> !acts[i].Orphan?
    ensures TidyRun(s, acts, s')
    decreases |acts|
  {
    hide StatusOk, Next, QueueOk, BooksOk, Tidy;
    if acts != [] {
      assert Tidy(s.sh, s.pc[acts[0].t]);
      InvStep(0, s, acts[0]);
      StatusStep(s, acts[0]);
      SerialStep(s, acts[0]);
      LockedRuns(Next(s, acts[0]), acts[1..], s');
    }
  }

  /** So in every run in which all children have a live parent, every completed wait finds a status. */
  lemma ParentsCollect(s0: State, acts: seq<Action>, s: State, t: Tid)
    requires Init(0, s0) && Runs(s0, acts, s) && t in s.pc && forall i :: 0 <= i < |acts| ==> !acts[i].Orphan?
    ensures s.pc[t].Collecting? || s.pc[t].Removing? ==> s.sh.list.chain != [] && s.sh.list.size == |s.sh.list.chain|
    ensures !s.pc[t].Stuck? && !s.pc[t].Crashed?
  {
    hide Inv, StatusOk;
    InitInv(0, s0);
    LockedRuns(s0, acts, s);
    EveryWaitCollects(s0, acts, s, t);
  }

  /** And the parent collects what its children were told to report, in the order in which they posted it. */
  lemma ParentsCollectInOrder(s0: State, acts: seq<Action>, s: State)
    requires Init(0, s0) && Runs(s0, acts, s) && forall i :: 0 <= i < |acts| ==> !acts[i].Orphan?
    ensures var l := LogOf(NO_LOG, s0, acts, s);
      l.taken + Statuses(s.sh.list.chain) == l.posted && l.calls == |l.posted| + |Where(s.pc, AtOwing())|
  {
    hide Inv, StatusOk;
    InitInv(0, s0);
    LockedRuns(s0, acts, s);
    CollectedInOrder(s0, acts, s);
  }

  // ---- A lost status -------------------------------------------------------

  /** A waiter of init, and two orphans. */
  function Three(h: Shared, p1: Pc, p2: Pc, p3: Pc): State { State(h, map[1 := p1, 2 := p2, 3 := p3]) }

  /** Both mutexes free, nobody queued: `n` resources and the status list, after the given numbers of events. */
  function Sh(n: int, l: StatusList, made: nat, waits: nat, posts: nat, taken: nat): Shared {
    Shared(true, true, n, [], {}, l, made, waits, waits, waits, 0, posts, posts, taken)
  }

  lemma {:induction false} RunsSnoc(s0: State, acts: seq<Action>, s: State, a: Action)
    requires Runs(s0, acts, s) && Enabled(s, a)
    ensures Runs(s0, acts + [a], Next(s, a))
    decreases |acts|
  {
    hide Enabled, Next;
    if acts == [] {
      assert [a][1..] == [] && acts + [a] == [a];
    } else {
      RunsSnoc(Next(s0, acts[0]), acts[1..], s, a);
      assert (acts + [a])[1..] == acts[1..] + [a];
    }
  }

  /** One step of one of the three threads, seen from its own place. */
  lemma Do(s0: State, acts: seq<Action>, h: Shared, p1: Pc, p2: Pc, p3: Pc, a: Action) returns (acts': seq<Action>)
    requires Runs(s0, acts, Three(h, p1, p2, p3)) && 1 <= a.t <= 3
    requires CanMove(h, a, if a.t == 1 then p1 else if a.t == 2 then p2 else p3)
    ensures a.t == 1 ==> Runs(s0, acts', Three(Move(h, a, p1).0, Move(h, a, p1).1, p2, p3))
    ensures a.t == 2 ==> Runs(s0, acts', Three(Move(h, a, p2).0, p1, Move(h, a, p2).1, p3))
    ensures a.t == 3 ==> Runs(s0, acts', Three(Move(h, a, p3).0, p1, p2, Move(h, a, p3).1))
  {
    hide Move, CanMove, Runs;
    var s := Three(h, p1, p2, p3);
    RunsSnoc(s0, acts, s, a);
    acts' := acts + [a];
    var m := Move(h, a, s.pc[a.t]);
    assert Next(s, a) == State(m.0, s.pc[a.t := m.1]);
    if a.t == 1 {
      assert s.pc[1 := m.1] == map[1 := m.1, 2 := p2, 3 := p3];
    } else if a.t == 2 {
      assert s.pc[2 := m.1] == map[1 := p1, 2 := m.1, 3 := p3];
    } else {
      assert s.pc[3 := m.1] == map[1 := p1, 2 := p2, 3 := m.1];
    }
  }

  const NONE: StatusList := StatusList([], NULL, 0)
  const R2: Report := Report(7, 2)
  const R3: Report := Report(8, 3)
  const A: Item := Item(0, R2)
  const B: Item := Item(1, R3)
  const ONLY_B: StatusList := StatusList([B], 1, 1)

  /** Only the first orphan's node is in the list, which counts two. */
  const ONLY_A: StatusList := StatusList([A], 0, 2)

  /** The first orphan finds the list empty; then the second one does. */
  lemma BothLook(s0: State) returns (acts: seq<Action>)
    requires s0 == Three(Sh(0, NONE, 0, 0, 0, 0), Idle, Idle, Idle)
    ensures Runs(s0, acts, Three(Sh(0, NONE, 2, 0, 0, 0), Idle, Linking(A, NULL, false), Linking(B, NULL, false)))
  {
    assert Runs(s0, [], s0);
    hide Runs, Three;
    acts := Do(s0, [], Sh(0, NONE, 0, 0, 0, 0), Idle, Idle, Idle, Orphan(2, R2));
    acts := Do(s0, acts, Sh(0, NONE, 0, 0, 0, 0), Idle, Posting(R2, false), Idle, Go(2));
    acts := Do(s0, acts, Sh(0, NONE, 1, 0, 0, 0), Idle, Linking(A, NULL, false), Idle, Orphan(3, R3));
    acts := Do(s0, acts, Sh(0, NONE, 1, 0, 0, 0), Idle, Linking(A, NULL, false), Posting(R3, false), Go(3));
  }

  /** The second orphan links its status. */
  lemma SecondLinks(s0: State, acts: seq<Action>) returns (acts': seq<Action>)
    requires Runs(s0, acts, Three(Sh(0, NONE, 2, 0, 0, 0), Idle, Linking(A, NULL, false), Linking(B, NULL, false)))
    ensures Runs(s0, acts', Three(Sh(0, ONLY_B, 2, 0, 0, 0).(posted := 1), Idle, Linking(A, NULL, false), WantSignal(false)))
  {
    hide Runs, Three;
    acts' := Do(s0, acts, Sh(0, NONE, 2, 0, 0, 0), Idle, Linking(A, NULL, false), Linking(B, NULL, false), Go(3));
  }

  /** It signals. */
  lemma SecondSignals(s0: State, acts: seq<Action>) returns (acts': seq<Action>)
    requires Runs(s0, acts, Three(Sh(0, ONLY_B, 2, 0, 0, 0).(posted := 1), Idle, Linking(A, NULL, false), WantSignal(false)))
    ensures Runs(s0, acts', Three(Sh(1, ONLY_B, 2, 0, 1, 0), Idle, Linking(A, NULL, false), Idle))
  {
    hide Runs, Three, Linked;
    var a, h := Linking(A, NULL, false), Sh(0, ONLY_B, 2, 0, 0, 0).(posted := 1);
    acts' := Do(s0, acts, h, Idle, a, WantSignal(false), Go(3));
    acts' := Do(s0, acts', h.(mFree := false), Idle, a, Signalling(false), Go(3));
    acts' := Do(s0, acts', Sh(1, ONLY_B, 2, 0, 1, 0).(mFree := false), Idle, a, Signalled(false), Go(3));
  }

  /** The first orphan still believes the list to be empty. */
  lemma FirstPosts(s0: State, acts: seq<Action>) returns (acts': seq<Action>)
    requires Runs(s0, acts, Three(Sh(1, ONLY_B, 2, 0, 1, 0), Idle, Linking(A, NULL, false), Idle))
    ensures Runs(s0, acts', Three(Sh(2, ONLY_A, 2, 0, 2, 0), Idle, Idle, Idle))
  {
    hide Runs, Three;
    var h := Sh(1, ONLY_A, 2, 0, 1, 0).(posted := 2);
    acts' := Do(s0, acts, Sh(1, ONLY_B, 2, 0, 1, 0), Idle, Linking(A, NULL, false), Idle, Go(2));
    acts' := Do(s0, acts', h, Idle, WantSignal(false), Idle, Go(2));
    acts' := Do(s0, acts', h.(mFree := false), Idle, Signalling(false), Idle, Go(2));
    acts' := Do(s0, acts', Sh(2, ONLY_A, 2, 0, 2, 0).(mFree := false), Idle, Signalled(false), Idle, Go(2));
  }

  /** Init waits, with a resource left, and gets to the list. */
  lemma WaiterPasses(s0: State, acts: seq<Action>, n: int, l: StatusList, w: nat, taken: nat) returns (acts': seq<Action>)
    requires n > 0 && Runs(s0, acts, Three(Sh(n, l, 2, w, 2, taken), Idle, Idle, Idle))
    ensures Runs(s0, acts', Three(Sh(n - 1, l, 2, w + 1, 2, taken).(pFree := false), Collecting, Idle, Idle))
  {
    hide Runs, Three;
    var h, h' := Sh(n, l, 2, w, 2, taken), Sh(n - 1, l, 2, w + 1, 2, taken);
    acts' := Do(s0, acts, h, Idle, Idle, Idle, Wait(1));
    acts' := Do(s0, acts', h, WantWait, Idle, Idle, Go(1));
    acts' := Do(s0, acts', h.(mFree := false), Waiting, Idle, Idle, Go(1));
    acts' := Do(s0, acts', h'.(mFree := false, passed := w), Passing, Idle, Idle, Go(1));
    acts' := Do(s0, acts', h', Passed, Idle, Idle, Go(1));
  }

  /** It takes the only status in the list. */
  lemma WaiterTakes(s0: State, acts: seq<Action>) returns (acts': seq<Action>)
    requires Runs(s0, acts, Three(Sh(1, ONLY_A, 2, 1, 2, 0).(pFree := false), Collecting, Idle, Idle))
    ensures Runs(s0, acts', Three(Sh(1, StatusList([], NULL, 1), 2, 1, 2, 1), Idle, Idle, Idle))
  {
    hide Runs, Three;
    var h, h' := Sh(1, ONLY_A, 2, 1, 2, 0), Sh(1, StatusList([], NULL, 1), 2, 1, 2, 1);
    acts' := Do(s0, acts, h.(pFree := false), Collecting, Idle, Idle, Go(1));
    acts' := Do(s0, acts', h.(pFree := false), Removing(true), Idle, Idle, Go(1));
    assert [A][1..] == [];
    acts' := Do(s0, acts', h'.(pFree := false), Collected(R2), Idle, Idle, Go(1));
  }

  /**
    Two orphans post to init at the same time: both waits of init complete, but one status is
    lost, and the second collection follows a null pointer.
  */
  lemma LostStatus() returns (s0: State, acts: seq<Action>, s: State)
    ensures Init(0, s0) && Runs(s0, acts, s) && s.sh.signals == 2 && s.sh.passed == 2 && s.sh.taken == 1
    ensures 1 in s.pc && s.pc[1].Crashed?
  {
    hide Runs;
    s0 := Three(Sh(0, NONE, 0, 0, 0, 0), Idle, Idle, Idle);
    acts := BothLook(s0);
    acts := SecondLinks(s0, acts);
    acts := SecondSignals(s0, acts);
    acts := FirstPosts(s0, acts);
    acts := WaiterPasses(s0, acts, 2, ONLY_A, 0, 0);
    acts := WaiterTakes(s0, acts);
    acts := WaiterPasses(s0, acts, 1, StatusList([], NULL, 1), 1, 1);
    var h := Sh(0, StatusList([], NULL, 1), 2, 2, 2, 1).(pFree := false);
    acts := Do(s0, acts, h, Collecting, Idle, Idle, Go(1));
    s := Three(h, Crashed(true), Idle, Idle);
  }
}
