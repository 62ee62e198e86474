/**
  Runs of the scheduler: what the kernel's entry points do to the pools, in any order and
  interleaved with clock interrupts, and what holds after every such run.
*/
module SchedulerRuns {
  import opened Lists
  import opened Pools

  datatype Op =
    | SpawnOp | DescheduleOp | MakeRunnableOp(t: int) | SleepOp(n: int)
    | VanishOp | YieldOp | CheckOp(t: int) | SwitchToOp | TickOp | ReapOp

  function WakeKey(tcbs: map<int, Tcb>): int -> int { t => WakeIn(tcbs, t) }

  /** Where the sorted insertion puts wake time `w` among the sleepers. */
  function Place(s: Sched, w: nat): (k: nat)
    ensures k <= |s.sleep|
  {
    SortedPlace(s.sleep, WakeKey(s.tcbs), w)
  }

  lemma PlaceInserts(s: Sched, w: nat)
    ensures InsertAt(s, w, Place(s, w))
  {
    hide SortedPlace;
    PlaceFits(s.sleep, WakeKey(s.tcbs), w);
  }

  /** The current thread sleeps until `w`; the idle thread is in no pool and only gets its record changed. */
  function SleepUntil(s: Sched, w: nat): Sched {
    if s.cur in s.threads then SleepAt(s, w, Place(s, w)) else s.(tcbs := s.tcbs[s.cur := Tcb(Sleeping, w)])
  }

  function SleepFor(s: Sched, n: int): Sched {
    if n <= 0 || s.cur !in s.tcbs || s.tcbs[s.cur].status.Sleeping? then s else SleepUntil(s, s.ticks + n)
  }

  /**
    What the kernel demands of whoever asks; a call that fails leaves the state alone.  A
    `make_runnable` may come from an interrupt handler at any time.  A thread inside `yield`
    makes no other call, and its switch is among the steps as long as
    the target is gone or still runnable; `SwitchToExact` is about the others.
  */
  predicate Enabled(s: Sched, op: Op) {
    match op
    case DescheduleOp => Calling(s)
    case MakeRunnableOp(t) => Safe(s, t)
    case SleepOp(n) => Calling(s) && s.ticks + n <= MAX_INT
    case VanishOp => Calling(s)
    case YieldOp => s.cur !in s.targets
    case CheckOp(t) => Calling(s)
    case SwitchToOp => Executing(s) && TargetReady(s)
    case TickOp => s.ticks < MAX_INT
    case _ => true
  }

  function Step(s: Sched, op: Op): Sched
    requires Ok(s) && Enabled(s, op)
  {
    match op
    case SpawnOp => Spawn(s)
    case DescheduleOp => if s.cur in s.threads then Deschedule(s) else s
    case MakeRunnableOp(t) => if t in s.tcbs then MakeRunnable(s, t) else s
    case SleepOp(n) => SleepFor(s, n)
    case VanishOp => if s.cur in s.threads then Vanish(s) else s
    case YieldOp => Switch(s)
    case CheckOp(t) => CheckTarget(s, t)
    case SwitchToOp => SwitchPending(s)
    case TickOp => Tick(s)
    case ReapOp => if s.zombie == [] then s else
      assert s.zombie[0] in s.zombie && s.zombie[0] in s.threads by { OnePool(s, s.zombie[0]); }
      Remove(s, s.zombie[0])
  }

  /** The operation may be made in `s` and leads to `s'`. */
  ghost predicate Takes(s: Sched, op: Op, s': Sched) { Ok(s) && Enabled(s, op) && s' == Step(s, op) }

  lemma PoolOfStatus(s: Sched, t: int)
    requires Ok(s) && t in s.threads
    ensures StatusOf(s, t).Runnable? || StatusOf(s, t).Running? ==> t in s.run
    ensures StatusOf(s, t).Waiting? ==> t in s.wait
    ensures StatusOf(s, t).Zombie? ==> t in s.zombie
    ensures StatusOf(s, t).Sleeping? ==> t in s.sleep || t in s.run
  {
    OnePool(s, t);
  }

  /** Taking a thread out of the table and its pool keeps everything else in order. */
  lemma RemovedOk(s: Sched, s': Sched, t: int)
    requires Ok(s) && t in s.threads && t != s.cur && Partition(s')
    requires s'.threads == s.threads - {t} && s'.tcbs == s.tcbs - {t} && s'.sleep == s.sleep && t !in s.sleep
    requires s'.cur == s.cur && s'.idle == s.idle && s'.ticks == s.ticks && s'.nextTid == s.nextTid
    requires t !in s'.run && t !in s'.wait && t !in s'.zombie && SameBut(s, s', t)
    ensures Ok(s')
  {
    hide Labels, Sorted, AllAfter, Partition;
    LabelsMoved(s, s', t);
    SleepersKept(s, s', t);
  }

  lemma DropBag(a: multiset<int>, b: multiset<int>, c: multiset<int>, d: multiset<int>, all: multiset<int>, x: int)
    requires a + b + c + d == all
    ensures x in a ==> (a - multiset{x}) + b + c + d == all - multiset{x}
    ensures x in b ==> a + (b - multiset{x}) + c + d == all - multiset{x}
    ensures x in d ==> a + b + c + (d - multiset{x}) == all - multiset{x}
  {
  }

  lemma RemovePartition(s: Sched, t: int)
    requires Ok(s) && t in s.threads && !s.tcbs[t].status.Sleeping?
    ensures Partition(Remove(s, t))
  {
    hide Unlink, Labels, Sorted, AllAfter;
    PoolOfStatus(s, t);
    UnlinkBag(s.run, t);
    UnlinkBag(s.wait, t);
    UnlinkBag(s.zombie, t);
    DropBag(multiset(s.run), multiset(s.wait), multiset(s.sleep), multiset(s.zombie), multiset(s.threads), t);
    assert multiset(Remove(s, t).threads) == multiset(s.threads) - multiset{t};
  }

  lemma RemoveSame(s: Sched, t: int)
    requires Ok(s) && t in s.threads && !s.tcbs[t].status.Sleeping?
    ensures var s' := Remove(s, t); SameBut(s, s', t) && t !in s'.run && t !in s'.wait && t !in s'.zombie && t !in s.sleep
  {
    hide Unlink, Labels, Sorted, AllAfter, Partition;
    OnePool(s, t);
    PoolOfStatus(s, t);
    UnlinkHas(s.run, t);
    UnlinkHas(s.wait, t);
    UnlinkHas(s.zombie, t);
  }

  /** Removal from the table keeps the pools in step exactly when the status is not SLEEPING. */
  lemma RemoveOk(s: Sched, t: int)
    requires Ok(s) && t in s.threads && t != s.cur
    ensures Ok(Remove(s, t)) <==> !s.tcbs[t].status.Sleeping?
  {
    hide Unlink, Labels, Sorted, AllAfter, Partition;
    if s.tcbs[t].status.Sleeping? {
      OnePool(s, t);
      if Ok(Remove(s, t)) { OnePool(Remove(s, t), t); }
    } else {
      RemovePartition(s, t);
      RemoveSame(s, t);
      RemovedOk(s, Remove(s, t), t);
    }
  }

  lemma IdleSleepOk(s: Sched, r: Tcb)
    requires Ok(s) && s.cur in s.tcbs && s.cur !in s.threads
    ensures Ok(s.(tcbs := s.tcbs[s.cur := r]))
  {
    hide Labels, Sorted, AllAfter, Partition;
    var s' := s.(tcbs := s.tcbs[s.cur := r]);
    OnePool(s, s.cur);
    PartitionSame(s, s');
    LabelsMoved(s, s', s.cur);
    SleepersKept(s, s', s.cur);
  }

  lemma SwitchToOk(s: Sched, t: int)
    requires Ok(s) && t in s.tcbs && (t == s.idle || t in s.run)
    ensures Ok(SwitchTo(s, t)) && Executing(SwitchTo(s, t))
  {
    hide Labels, Sorted, AllAfter, Partition;
    DeferOk(s);
    SetRunningOk(Defer(s), t);
  }

  /** Switching to a thread of the table keeps the pools in step exactly when it is in the runnable pool. */
  lemma SwitchToExact(s: Sched, t: int)
    requires Ok(s) && t in s.threads
    ensures Ok(SwitchTo(s, t)) <==> t in s.run
  {
    hide Sorted, AllAfter, Partition;
    if t in s.run {
      SwitchToOk(s, t);
    } else {
      OnePool(s, t);
      assert StatusOf(SwitchTo(s, t), t).Running?;
    }
  }

  lemma SwitchPendingOk(s: Sched)
    requires Ok(s) && TargetReady(s)
    ensures Ok(SwitchPending(s)) && Executing(SwitchPending(s))
  {
    hide Labels, Sorted, AllAfter, Partition;
    var s' := s.(targets := s.targets - {s.cur});
    assert Ok(s') by { YieldsFree(s, s'.targets); }
    SwitchToOk(s', if s.targets[s.cur] in s.threads then s.targets[s.cur] else s.idle);
  }

  /** What threads inside `yield` remember is no concern of the pools. */
  lemma YieldsFree(s: Sched, ys: map<int, int>)
    requires Ok(s)
    ensures Ok(s.(targets := ys))
  {
  }

  lemma SleepForOk(s: Sched, n: int)
    requires Ok(s) && Executing(s)
    ensures Ok(SleepFor(s, n))
  {
    hide Labels, Sorted, AllAfter, Partition, SleepAt, InsertAt;
    if n > 0 && s.cur in s.tcbs && !s.tcbs[s.cur].status.Sleeping? {
      if s.cur in s.threads {
        PlaceInserts(s, s.ticks + n);
        SleepOk(s, s.ticks + n, Place(s, s.ticks + n));
      } else {
        IdleSleepOk(s, Tcb(Sleeping, s.ticks + n));
      }
    }
  }

  lemma ReapOk(s: Sched)
    requires Ok(s) && Enabled(s, ReapOp)
    ensures Ok(Step(s, ReapOp))
  {
    if s.zombie != [] {
      var z := s.zombie[0];
      assert z in s.zombie;
      OnePool(s, z);
      RemoveOk(s, z);
    }
  }

  lemma Records(s: Sched)
    requires Ok(s)
    ensures s.threads <= s.tcbs.Keys
  {
  }

  /** Every enabled operation keeps the invariant. */
  lemma StepOk(s: Sched, op: Op)
    requires Ok(s) && Enabled(s, op)
    ensures Ok(Step(s, op))
  {
    hide Ok, Executing, Spawn, Deschedule, MakeRunnable, SleepFor, Vanish, Switch, SwitchTo, WakeDue, Remove, Safe;
    Records(s);
    match op {
      case SpawnOp => SpawnOk(s);
      case DescheduleOp => if s.cur in s.threads { DescheduleOk(s); }
      case MakeRunnableOp(t) => if t in s.tcbs { MakeRunnableOk(s, t); }
      case SleepOp(n) => SleepForOk(s, n);
      case VanishOp => if s.cur in s.threads { VanishOk(s); }
      case YieldOp => SwitchOk(s);
      case CheckOp(t) => YieldsFree(s, s.targets[s.cur := t]);
      case SwitchToOp => SwitchPendingOk(s);
      case TickOp =>
        TickWakes(s);
        SwitchOk(WakeDue(s.(ticks := s.ticks + 1)));
      case ReapOp => ReapOk(s);
    }
  }

  // ---- Runs ----------------------------------------------------------------

  /** The state after initialisation: only the idle thread exists, and nobody is current. */
  function Init(): Sched { Sched(map[0 := Tcb(Runnable, 0)], {}, [], [], [], [], NO_THREAD, 0, 0, 1, map[]) }

  lemma InitOk()
    ensures Ok(Init())
  {
  }

  ghost predicate Reaches(s: Sched, ops: seq<Op>, s': Sched)
    decreases |ops|
  {
    if ops == [] then s' == s
    else Ok(s) && Enabled(s, ops[0]) && Reaches(Step(s, ops[0]), ops[1..], s')
  }

  /** The state after a history of requests, in which a request that is not enabled is not made. */
  function RunAll(s: Sched, ops: seq<Op>): (r: Sched)
    requires Ok(s)
    ensures Ok(r)
    decreases |ops|
  {
    if ops == [] then s
    else if Enabled(s, ops[0]) then StepOk(s, ops[0]); RunAll(Step(s, ops[0]), ops[1..])
    else RunAll(s, ops[1..])
  }

  lemma {:induction false} RunAllReaches(s: Sched, ops: seq<Op>) returns (made: seq<Op>)
    requires Ok(s)
    ensures Reaches(s, made, RunAll(s, ops))
    decreases |ops|
  {
    hide Ok, Step, Enabled;
    if ops == [] {
      made := [];
    } else if Enabled(s, ops[0]) {
      StepOk(s, ops[0]);
      var rest := RunAllReaches(Step(s, ops[0]), ops[1..]);
      made := [ops[0]] + rest;
      FirstDo(s, ops[0], rest, RunAll(s, ops));
    } else {
      made := RunAllReaches(s, ops[1..]);
    }
  }

  lemma {:induction false} RunOk(s: Sched, ops: seq<Op>, s': Sched)
    requires Ok(s) && Reaches(s, ops, s')
    ensures Ok(s')
    decreases |ops|
  {
    hide Ok, Step, Enabled;
    if ops != [] {
      StepOk(s, ops[0]);
      RunOk(Step(s, ops[0]), ops[1..], s');
    }
  }

  /**
    Pool partition over every run from initialisation: a thread of the table is in exactly one
    pool, and the pool sizes add up to the size of the table.
  */
  lemma EveryRunPartitions(ops: seq<Op>, s: Sched, t: int)
    requires Reaches(Init(), ops, s)
    ensures (multiset(s.run) + multiset(s.wait) + multiset(s.sleep) + multiset(s.zombie))[t] == if t in s.threads then 1 else 0
    ensures |s.run| + |s.wait| + |s.sleep| + |s.zombie| == |s.threads|
  {
    InitOk();
    RunOk(Init(), ops, s);
    OnePool(s, t);
  }

  // ---- No sleeper is missed ------------------------------------------------

  /** Thread `t` sleeps on, with the same wake time. */
  predicate SleepsOn(s: Sched, s': Sched, t: int) {
    t in s'.sleep && Wake(s', t) == Wake(s, t) && s'.ticks == s.ticks
  }

  lemma SleeperIsNotRunning(s: Sched, t: int)
    requires Ok(s) && t in s.sleep
    ensures t in s.tcbs && t != s.nextTid && t !in s.run && t !in s.zombie && t !in s.wait && t != s.idle && s.tcbs[t].status.Sleeping?
    ensures Executing(s) ==> s.cur != t
  {
    OnePool(s, t);
  }

  lemma RunHasRecord(s: Sched, t: int)
    requires Ok(s) && t in s.run
    ensures t in s.tcbs
  {
  }

  /** A switch changes no wake time and no pool but the runnable one. */
  lemma SwitchWakes(s: Sched, t: int)
    requires Ok(s)
    ensures Wake(Switch(s), t) == Wake(s, t) && Switch(s).sleep == s.sleep && Switch(s).ticks == s.ticks
  {
    hide Labels, Sorted, AllAfter, Partition;
    if s.run != [] {
      var h := Rotate(s.run)[0];
      assert h == s.run[if |s.run| > 1 then 1 else 0] && h in s.run;
      RunHasRecord(s, h);
    }
  }

  lemma SwitchPendingWakes(s: Sched, t: int)
    requires Ok(s) && s.cur in s.targets
    ensures Wake(SwitchPending(s), t) == Wake(s, t) && SwitchPending(s).sleep == s.sleep && SwitchPending(s).ticks == s.ticks
  {
    hide Labels, Sorted, AllAfter, Partition;
  }

  lemma MakeRunnableSleepsOn(s: Sched, u: int, t: int)
    requires t in s.sleep && t in s.tcbs && u in s.tcbs && u != t && Safe(s, u)
    ensures SleepsOn(s, MakeRunnable(s, u), t)
  {
    hide Unlink;
    UnlinkKeeps(s.sleep, u, t);
  }

  lemma SleepForSleepsOn(s: Sched, n: int, t: int)
    requires t in s.sleep && t in s.tcbs && s.cur != t
    ensures SleepsOn(s, SleepFor(s, n), t)
  {
    hide Unlink, SortedPlace;
    if n > 0 { InsertHas(s.sleep, s.cur, Place(s, s.ticks + n)); }
  }

  lemma RemoveSleepsOn(s: Sched, z: int, t: int)
    requires t in s.sleep && t in s.tcbs && z in s.threads && z in s.tcbs && z != t
    ensures SleepsOn(s, Remove(s, z), t)
  {
    hide Unlink;
  }

  /** Only its own tick or a `make_runnable` ends a sleep. */
  lemma OthersSleepOn(s: Sched, op: Op, t: int)
    requires Ok(s) && Enabled(s, op) && t in s.sleep && op != MakeRunnableOp(t) && !op.TickOp?
    ensures SleepsOn(s, Step(s, op), t)
  {
    hide Labels, Sorted, AllAfter, Partition, Unlink, Ids, Switch, MakeRunnable, SleepFor, Remove, Executing, Safe;
    Records(s);
    SleeperIsNotRunning(s, t);
    match op {
      case SpawnOp =>
      case DescheduleOp =>
      case MakeRunnableOp(u) => if u in s.tcbs { MakeRunnableSleepsOn(s, u, t); }
      case SleepOp(n) => SleepForSleepsOn(s, n, t);
      case VanishOp =>
      case YieldOp => SwitchWakes(s, t);
      case CheckOp(u) =>
      case SwitchToOp => SwitchPendingWakes(s, t);
      case ReapOp => if s.zombie != [] {
        var z := s.zombie[0];
        assert z in s.zombie && z != t;
        OnePool(s, z);
        RemoveSleepsOn(s, z, t);
      }
    }
  }

  lemma {:induction false} UnlinkKeeps(l: seq<int>, u: int, t: int)
    requires t in l && t != u
    ensures t in Unlink(l, u)
  {
    assert l == [l[0]] + l[1..];
    if l[0] != u && l[0] != t {
      UnlinkKeeps(l[1..], u, t);
    }
  }

  lemma TickDue(s: Sched)
    requires Ok(s)
    ensures Due(s.(ticks := s.ticks + 1))
  {
  }

  /** The wakeup loop wakes `t` exactly when its time is now. */
  lemma WakeDueOnTime(s: Sched, t: int)
    requires Due(s) && t in s.sleep
    ensures var d := WakeDue(s);
      d.ticks == s.ticks && Wake(d, t) == Wake(s, t) && if Wake(s, t) == s.ticks then t in d.run && t !in d.sleep else t in d.sleep
  {
    hide WakeDue;
    hide Ids, Labels, Sorted, AllAfter;
    var k := WakeDueOk(s);
    OnePool(WakeDue(s), t);
    var i :| 0 <= i < |s.sleep| && s.sleep[i] == t;
    if i < k {
      assert s.sleep[..k][i] == t;
    } else {
      assert s.sleep[k..][i - k] == t;
    }
  }

  lemma SwitchRun(s: Sched, t: int)
    requires Ok(s)
    ensures t in Switch(s).run <==> t in s.run
  {
    hide Ok;
    SwitchOk(s);
    RotateBag(s.run);
    SameBag(Rotate(s.run), s.run);
  }

  /** A tick wakes exactly the threads whose wake time it is. */
  lemma TickWakesOnTime(s: Sched, t: int)
    requires Ok(s) && t in s.sleep
    ensures var s' := Tick(s);
      s'.ticks == s.ticks + 1 && Wake(s', t) == Wake(s, t) && if Wake(s, t) == s.ticks + 1 then t in s'.run && t !in s'.sleep else t in s'.sleep
  {
    hide Ok, Due, Switch, WakeDue;
    var s1 := s.(ticks := s.ticks + 1);
    TickDue(s);
    TickWakes(s);
    WakeDueOnTime(s1, t);
    SwitchWakes(WakeDue(s1), t);
    SwitchRun(WakeDue(s1), t);
  }

  /** Until its wake time a sleeper stays asleep, whatever else happens, unless made runnable. */
  lemma {:induction false} SleepsUntilDue(s: Sched, ops: seq<Op>, s': Sched, t: int)
    requires Ok(s) && t in s.sleep && Reaches(s, ops, s') && MakeRunnableOp(t) !in ops && s'.ticks < Wake(s, t)
    ensures t in s'.sleep && Wake(s', t) == Wake(s, t)
    decreases |ops|
  {
    hide Ok, Step, Enabled, Wake;
    if ops != [] {
      var op, s1 := ops[0], Step(s, ops[0]);
      StepOk(s, op);
      TicksGrow(s1, ops[1..], s');
      StepOnTime(s, op, t);
      SleepsUntilDue(s1, ops[1..], s', t);
    }
  }

  lemma StepOnTime(s: Sched, op: Op, t: int)
    requires Ok(s) && Enabled(s, op) && t in s.sleep && op != MakeRunnableOp(t)
    ensures var s' := Step(s, op); Wake(s', t) == Wake(s, t) && s'.ticks == s.ticks + (if op.TickOp? then 1 else 0)
    ensures var s' := Step(s, op); t in s'.sleep <==> s'.ticks < Wake(s, t)
    ensures var s' := Step(s, op); t !in s'.sleep ==> op.TickOp? && t in s'.run
  {
    if op.TickOp? {
      TickWakesOnTime(s, t);
    } else {
      OthersSleepOn(s, op, t);
    }
  }

  lemma StepTicks(s: Sched, op: Op)
    requires Ok(s) && Enabled(s, op)
    ensures Step(s, op).ticks >= s.ticks
  {
    hide Labels, Sorted, AllAfter, Partition, Unlink, Ids, Switch, SortedPlace, WakeDue, Rotate;
    match op {
      case TickOp =>
        TickDue(s);
        var k := WakeDueOk(s.(ticks := s.ticks + 1));
        SwitchWakes(WakeDue(s.(ticks := s.ticks + 1)), 0);
      case YieldOp => SwitchWakes(s, 0);
      case SwitchToOp => SwitchPendingWakes(s, 0);
      case _ =>
    }
  }

  lemma {:induction false} TicksGrow(s: Sched, ops: seq<Op>, s': Sched)
    requires Ok(s) && Reaches(s, ops, s')
    ensures s.ticks <= s'.ticks
    decreases |ops|
  {
    hide Ok, Step, Enabled;
    if ops != [] {
      StepOk(s, ops[0]);
      StepTicks(s, ops[0]);
      TicksGrow(Step(s, ops[0]), ops[1..], s');
    }
  }

  /** A run that reaches the wake time of a sleeper takes a step. */
  lemma NotYetDue(s: Sched, ops: seq<Op>, s': Sched, t: int)
    requires Ok(s) && t in s.sleep && Reaches(s, ops, s') && s'.ticks >= Wake(s, t)
    ensures s.ticks < Wake(s, t) && ops != [] && Enabled(s, ops[0]) && Reaches(Step(s, ops[0]), ops[1..], s')
  {
    assert Wake(s, t) > s.ticks;
  }

  /**
    No sleeper is missed: in every run that passes its wake time, a sleeper that nobody made
    runnable was woken by a tick, exactly when the clock showed that time.
  */
  lemma {:induction false} WokenOnTime(s: Sched, ops: seq<Op>, s': Sched, t: int) returns (i: nat, a: Sched)
    requires Ok(s) && t in s.sleep && Reaches(s, ops, s') && MakeRunnableOp(t) !in ops && s'.ticks >= Wake(s, t)
    ensures i < |ops| && ops[i].TickOp? && Reaches(s, ops[..i], a) && Ok(a) && Enabled(a, TickOp) && Reaches(Step(a, TickOp), ops[i + 1..], s')
    ensures t in a.sleep && Step(a, TickOp).ticks == Wake(s, t) && t in Step(a, TickOp).run && t !in Step(a, TickOp).sleep
    decreases |ops|
  {
    hide Ok, Step, Enabled, Wake, Reaches;
    NotYetDue(s, ops, s', t);
    var op, s1 := ops[0], Step(s, ops[0]);
    StepOk(s, op);
    StepOnTime(s, op, t);
    if t in s1.sleep {
      var j;
      j, a := WokenOnTime(s1, ops[1..], s', t);
      i := j + 1;
      FirstDo(s, op, ops[1..][..j], a);
      assert ops[..i] == [op] + ops[1..][..j] && ops[1..][j + 1..] == ops[i + 1..];
    } else {
      i, a := 0, s;
      ReachesSelf(s);
      assert ops[..0] == [];
    }
  }

  /** A thread that asks to sleep `n` ticks sleeps until the clock shows `n` more. */
  lemma SleepForFacts(s: Sched, n: int)
    requires Ok(s) && Executing(s) && s.cur in s.threads && n > 0
    ensures var s' := SleepFor(s, n);
      && s.cur in s'.sleep && s.cur !in s'.run && Wake(s', s.cur) == s.ticks + n && StatusOf(s', s.cur).Sleeping? && s'.ticks == s.ticks
  {
    hide Unlink, SortedPlace;
    OnePool(s, s.cur);
    UnlinkHas(s.run, s.cur);
    InsertHas(s.sleep, s.cur, Place(s, s.ticks + n));
  }

  /**
    `sleep(n)` lasts `n` ticks: in every run after it in which nobody makes the thread runnable,
    the thread is asleep as long as fewer ticks have passed, and once `n` have passed it was
    woken by the very tick that made the clock `n` later than at the call.
  */
  lemma SleepsExactly(s: Sched, n: int, ops: seq<Op>, s': Sched) returns (i: nat, a: Sched)
    requires Ok(s) && Enabled(s, SleepOp(n)) && s.cur in s.threads && n > 0
    requires Reaches(Step(s, SleepOp(n)), ops, s') && MakeRunnableOp(s.cur) !in ops
    ensures s'.ticks < s.ticks + n ==> s.cur in s'.sleep
    ensures s'.ticks >= s.ticks + n ==> i < |ops| && ops[i].TickOp? && Ok(a) && Enabled(a, TickOp)
    ensures s'.ticks >= s.ticks + n ==> Reaches(Step(s, SleepOp(n)), ops[..i], a) && Reaches(Step(a, TickOp), ops[i + 1..], s')
    ensures s'.ticks >= s.ticks + n ==> s.cur in a.sleep && s.cur in Step(a, TickOp).run && a.ticks + 1 == Step(a, TickOp).ticks == s.ticks + n
  {
    hide Ok, Executing, SleepFor, Reaches;
    SleepForFacts(s, n);
    StepOk(s, SleepOp(n));
    var s1 := Step(s, SleepOp(n));
    assert s1 == SleepFor(s, n);
    i, a := 0, s;
    if s'.ticks < s.ticks + n {
      SleepsUntilDue(s1, ops, s', s.cur);
    } else {
      i, a := WokenOnTime(s1, ops, s', s.cur);
      TickWakesOnTime(a, s.cur);
    }
  }

  // ---- The life of a thread ------------------------------------------------

  /** The pool a thread is in, if any. */
  datatype Where = Nowhere | InRun | InWait | InSleep | InZombie

  predicate At(s: Sched, t: int, w: Where) {
    && (t in s.run <==> w.InRun?) && (t in s.wait <==> w.InWait?) && (t in s.sleep <==> w.InSleep?) && (t in s.zombie <==> w.InZombie?)
  }

  lemma Somewhere(s: Sched, t: int) returns (w: Where)
    requires Ok(s)
    ensures At(s, t, w) && (w.Nowhere? <==> t !in s.threads)
  {
    hide Labels, Sorted, AllAfter, Ids, Partition;
    OnePool(s, t);
    w := if t in s.run then InRun else if t in s.wait then InWait else if t in s.sleep then InSleep else if t in s.zombie then InZombie else Nowhere;
  }

  /** The thread an operation is about, if it is about one. */
  predicate IsAbout(s: Sched, op: Op, t: int) {
    match op
    case SpawnOp => t == s.nextTid
    case DescheduleOp => t == s.cur && t in s.threads
    case SleepOp(n) => t == s.cur && t in s.threads && n > 0
    case VanishOp => t == s.cur && t in s.threads
    case MakeRunnableOp(u) => t == u && (t in s.wait || t in s.sleep)
    case TickOp => t in s.sleep && Wake(s, t) == s.ticks + 1
    case ReapOp => s.zombie != [] && t == s.zombie[0]
    case _ => false
  }

  /** Where it takes that thread. */
  function Goal(op: Op): Where {
    match op
    case SpawnOp => InRun
    case DescheduleOp => InWait
    case MakeRunnableOp(_) => InRun
    case SleepOp(_) => InSleep
    case VanishOp => InZombie
    case TickOp => InRun
    case _ => Nowhere
  }

  lemma SpawnAt(s: Sched, t: int, w: Where)
    requires Ok(s) && At(s, t, w)
    ensures At(Spawn(s), t, if t == s.nextTid then InRun else w)
  {
    hide Labels, Sorted, AllAfter, Partition;
    if t == s.nextTid { OnePool(s, t); }
  }

  /** The running thread leaves the runnable pool. */
  lemma CurrentAt(s: Sched, t: int, w: Where)
    requires Ok(s) && Calling(s) && s.cur in s.threads && At(s, t, w)
    ensures At(Deschedule(s), t, if t == s.cur then InWait else w)
    ensures At(Vanish(s), t, if t == s.cur then InZombie else w)
  {
    hide Labels, Sorted, AllAfter, Partition, Unlink;
    OnePool(s, s.cur);
    UnlinkHas(s.run, s.cur);
  }

  lemma SleepForAt(s: Sched, n: int, t: int, w: Where)
    requires Ok(s) && Calling(s) && At(s, t, w)
    ensures At(SleepFor(s, n), t, if t == s.cur && t in s.threads && n > 0 then InSleep else w)
  {
    hide Labels, Sorted, AllAfter, Partition, Unlink, SortedPlace;
    OnePool(s, s.cur);
    UnlinkHas(s.run, s.cur);
    if n > 0 { InsertHas(s.sleep, s.cur, Place(s, s.ticks + n)); }
  }

  lemma MakeRunnableAt(s: Sched, u: int, t: int, w: Where)
    requires Ok(s) && Safe(s, u) && u in s.tcbs && At(s, t, w)
    ensures At(MakeRunnable(s, u), t, if t == u && (t in s.wait || t in s.sleep) then InRun else w)
  {
    hide Sorted, AllAfter, Partition, Unlink;
    OnePool(s, u);
    UnlinkHas(s.wait, u);
    UnlinkHas(s.sleep, u);
  }

  lemma ReapAt(s: Sched, t: int, w: Where)
    requires Ok(s) && At(s, t, w)
    ensures At(Step(s, ReapOp), t, if s.zombie != [] && t == s.zombie[0] then Nowhere else w)
  {
    hide Sorted, AllAfter, Partition, Unlink;
    if s.zombie != [] {
      var z := s.zombie[0];
      assert z in s.zombie;
      OnePool(s, z);
      UnlinkHas(s.zombie, z);
    }
  }

  lemma SwitchAt(s: Sched, t: int, w: Where)
    requires Ok(s) && At(s, t, w)
    ensures At(Switch(s), t, w)
  {
    hide Ok, Rotate;
    SwitchRun(s, t);
  }

  lemma TickAt(s: Sched, t: int, w: Where)
    requires Ok(s) && At(s, t, w)
    ensures At(Tick(s), t, if t in s.sleep && Wake(s, t) == s.ticks + 1 then InRun else w)
  {
    hide Ok, Switch, WakeDue, Wake;
    var s1 := s.(ticks := s.ticks + 1);
    TickDue(s);
    TickWakes(s);
    var k := WakeDueOk(s1);
    if t in s.sleep {
      WakeDueOnTime(s1, t);
      assert Wake(s1, t) == Wake(s, t) by { SameWake(s, t); }
      OkOnePool(WakeDue(s1), t);
    } else {
      NotWoken(s.sleep, k, t);
    }
    SwitchAt(WakeDue(s1), t, if t in s.sleep && Wake(s, t) == s.ticks + 1 then InRun else w);
  }

  lemma SameWake(s: Sched, t: int)
    ensures Wake(s.(ticks := s.ticks + 1), t) == Wake(s, t)
  {
  }

  lemma NotWoken(l: seq<int>, k: nat, t: int)
    requires k <= |l| && t !in l
    ensures t !in l[..k] && t !in l[k..]
  {
  }

  lemma OkOnePool(s: Sched, t: int)
    requires Ok(s)
    ensures t in s.run ==> t !in s.wait && t !in s.sleep && t !in s.zombie
  {
    OnePool(s, t);
  }

  /**
    The life cycle: an operation takes the thread it is about, and no other, to the pool it is
    for.  So a thread waits exactly from its deschedule until it is made runnable, sleeps until that
    or its tick, and is a zombie from its end until it is reaped.
  */
  lemma LifeCycle(s: Sched, op: Op, t: int) returns (w: Where)
    requires Ok(s) && Enabled(s, op)
    ensures At(s, t, w) && At(Step(s, op), t, if IsAbout(s, op, t) then Goal(op) else w)
    ensures t in Step(s, op).threads <==> if IsAbout(s, op, t) then !Goal(op).Nowhere? else !w.Nowhere?
  {
    hide Ok, Executing, At, Spawn, Deschedule, MakeRunnable, SleepFor, Vanish, Switch, SwitchTo, WakeDue, Remove, Safe;
    Records(s);
    w := Somewhere(s, t);
    match op {
      case SpawnOp => SpawnAt(s, t, w);
      case DescheduleOp => if s.cur in s.threads { CurrentAt(s, t, w); }
      case MakeRunnableOp(u) => if u in s.tcbs { MakeRunnableAt(s, u, t, w); } else { NoRecordAt(s, u); }
      case SleepOp(n) => SleepForAt(s, n, t, w);
      case VanishOp => if s.cur in s.threads { CurrentAt(s, t, w); }
      case YieldOp => SwitchAt(s, t, w);
      case CheckOp(u) => SamePools(s, Step(s, op), t, w);
      case SwitchToOp => PendingAt(s, t, w);
      case TickOp => TickAt(s, t, w);
      case ReapOp => ReapAt(s, t, w);
    }
    StepOk(s, op);
    var w' := Somewhere(Step(s, op), t);
    OneWhere(Step(s, op), t, w', if IsAbout(s, op, t) then Goal(op) else w);
  }

  lemma OneWhere(s: Sched, t: int, w: Where, w': Where)
    requires At(s, t, w) && At(s, t, w')
    ensures w == w'
  {
  }

  lemma NoRecordAt(s: Sched, u: int)
    requires Ok(s) && u !in s.tcbs
    ensures u !in s.wait && u !in s.sleep
  {
    OnePool(s, u);
  }

  lemma SamePools(s: Sched, s': Sched, t: int, w: Where)
    requires At(s, t, w) && s'.run == s.run && s'.wait == s.wait && s'.sleep == s.sleep && s'.zombie == s.zombie
    ensures At(s', t, w)
  {
  }

  lemma PendingAt(s: Sched, t: int, w: Where)
    requires Ok(s) && s.cur in s.targets && At(s, t, w)
    ensures At(SwitchPending(s), t, w)
  {
  }

  // ---- Who is marked as sleeping -------------------------------------------

  /** A runnable thread marked SLEEPING was woken by the clock, at the wake time it still has. */
  predicate WokenAt(s: Sched, t: int) { t in s.run && StatusOf(s, t).Sleeping? ==> 0 < Wake(s, t) <= s.ticks }

  ghost predicate Woken(s: Sched) { forall t :: WokenAt(s, t) }

  /** Nothing about `t` has changed that matters to it. */
  predicate MarkedAlike(s: Sched, s': Sched, t: int) {
    (t in s.run || t !in s'.run) && StatusOf(s', t) == StatusOf(s, t) && Wake(s', t) == Wake(s, t)
  }

  lemma SwitchMarks(s: Sched, t: int)
    requires Ok(s)
    ensures var s' := Switch(s); MarkedAlike(s, s', t) || !StatusOf(s', t).Sleeping?
  {
    hide Rotate;
    SwitchRun(s, t);
    SwitchWakes(s, t);
  }

  lemma WakeDueMarks(s: Sched, t: int)
    requires Due(s) && s.ticks > 0
    ensures var s' := WakeDue(s); MarkedAlike(s, s', t) || (0 < Wake(s', t) <= s'.ticks)
  {
    hide WakeDue, Ids, Labels, Sorted, AllAfter, Partition;
    var k := WakeDueOk(s);
    if t in s.sleep[..k] {
      var i :| 0 <= i < k && s.sleep[i] == t;
    }
  }

  /** No other operation marks a runnable thread so. */
  lemma OthersMark(s: Sched, op: Op, t: int)
    requires Ok(s) && Enabled(s, op) && !op.TickOp?
    ensures var s' := Step(s, op); s'.ticks >= s.ticks && (MarkedAlike(s, s', t) || t !in s'.run || !StatusOf(s', t).Sleeping?)
  {
    hide Labels, Sorted, AllAfter, Partition, Unlink, Ids, Switch, Executing, Safe, SortedPlace;
    Records(s);
    StepTicks(s, op);
    UnlinkWithin(s.run, s.cur);
    match op {
      case YieldOp => SwitchMarks(s, t);
      case SleepOp(n) => SleepMarks(s, n, t);
      case ReapOp => ReapMarks(s, t);
      case _ =>
    }
  }

  lemma SleepMarks(s: Sched, n: int, t: int)
    requires Ok(s) && Calling(s)
    ensures var s' := SleepFor(s, n); MarkedAlike(s, s', t) || t !in s'.run
  {
    hide Labels, Sorted, AllAfter, Unlink, SortedPlace, Safe;
    OnePool(s, s.cur);
    UnlinkHas(s.run, s.cur);
  }

  lemma ReapMarks(s: Sched, t: int)
    requires Ok(s)
    ensures var s' := Step(s, ReapOp); MarkedAlike(s, s', t) || !StatusOf(s', t).Sleeping?
  {
    hide Labels, Sorted, AllAfter, Unlink;
    if s.zombie != [] {
      var z := s.zombie[0];
      assert z in s.zombie;
      OnePool(s, z);
      UnlinkWithin(s.run, z);
    }
  }

  lemma WokenStep(s: Sched, op: Op)
    requires Ok(s) && Woken(s) && Enabled(s, op)
    ensures Woken(Step(s, op))
  {
    hide Ok, Switch, WakeDue, StatusOf, Wake;
    forall t ensures WokenAt(Step(s, op), t) {
      assert WokenAt(s, t);
      if op.TickOp? {
        TickMarks(s, t);
      } else {
        OthersMark(s, op, t);
      }
    }
  }

  lemma TickMarks(s: Sched, t: int)
    requires Ok(s) && WokenAt(s, t)
    ensures WokenAt(Tick(s), t)
  {
    hide Ok, Switch, WakeDue;
    var s1 := s.(ticks := s.ticks + 1);
    TickDue(s);
    TickWakes(s);
    WakeDueMarks(s1, t);
    var d := WakeDue(s1);
    assert d.ticks == s1.ticks by { var k := WakeDueOk(s1); }
    SwitchMarks(d, t);
    SwitchWakes(d, t);
  }

  lemma {:induction false} WokenRuns(s: Sched, ops: seq<Op>, s': Sched)
    requires Ok(s) && Woken(s) && Reaches(s, ops, s')
    ensures Woken(s')
    decreases |ops|
  {
    hide Ok, Step, Enabled, Woken;
    if ops != [] {
      StepOk(s, ops[0]);
      WokenStep(s, ops[0]);
      WokenRuns(Step(s, ops[0]), ops[1..], s');
    }
  }

  /**
    In every run a runnable thread is marked RUNNABLE, or RUNNING if it is the current one, unless
    it slept until its time came and has not run since: whoever is started, switched away from or
    made runnable early is marked so.
  */
  lemma EveryRunMarks(ops: seq<Op>, s: Sched, t: int)
    requires Reaches(Init(), ops, s) && t in s.run
    ensures StatusOf(s, t).Runnable? || (StatusOf(s, t).Running? && t == s.cur) || (StatusOf(s, t).Sleeping? && 0 < Wake(s, t) <= s.ticks)
  {
    hide Partition, Sorted, AllAfter;
    InitOk();
    assert Woken(Init());
    WokenRuns(Init(), ops, s);
    RunOk(Init(), ops, s);
    OnePool(s, t);
    assert WokenAt(s, t);
  }

  // ---- Round robin ---------------------------------------------------------

  /** With `n` threads and an unchanged pool, `n` picks visit each of them exactly once. */
  lemma RoundRobin(l: seq<int>, t: int) returns (k: nat)
    requires Distinct(l) && t in l
    ensures 0 < k <= |l| && RotateTimes(l, k)[0] == t
    ensures forall j :: 0 < j <= |l| && RotateTimes(l, j)[0] == t ==> j == k
  {
    var i :| 0 <= i < |l| && l[i] == t;
    k := if i == 0 then |l| else i;
    forall j | 0 < j <= |l| ensures RotateTimes(l, j)[0] == l[if j == |l| then 0 else j] {
      RotateTimesSplit(l, j);
    }
  }

  function Picks(s: Sched, k: nat): (r: Sched)
    requires Ok(s)
    ensures Ok(r)
  {
    if k == 0 then s else
      SwitchOk(Picks(s, k - 1));
      Switch(Picks(s, k - 1))
  }

  lemma {:induction false} PicksRotate(s: Sched, k: nat)
    requires Ok(s) && s.run != []
    ensures Picks(s, k).run == RotateTimes(s.run, k)
    ensures k > 0 ==> Picks(s, k).cur == RotateTimes(s.run, k)[0]
  {
    hide Ok, Switch;
    if k > 0 {
      PicksRotate(s, k - 1);
      SwitchOk(Picks(s, k - 1));
    }
  }

  lemma CountedTwice(l: seq<int>, x: nat, y: nat)
    requires x < y < |l| && l[x] == l[y]
    ensures multiset(l)[l[x]] >= 2
  {
    assert l == l[..y] + l[y..] && l[..y][x] == l[x] && l[y..][0] == l[x];
    assert multiset(l)[l[x]] == multiset(l[..y])[l[x]] + multiset(l[y..])[l[x]];
    assert l[x] in l[..y] && l[x] in l[y..];
  }

  lemma RunDistinct(s: Sched)
    requires Partition(s)
    ensures Distinct(s.run)
  {
    forall x, y | 0 <= x < y < |s.run| ensures s.run[x] != s.run[y] {
      OnePool(s, s.run[x]);
      if s.run[x] == s.run[y] { CountedTwice(s.run, x, y); }
    }
  }

  /** Scheduler-chosen switches give every runnable thread exactly one turn per round. */
  lemma EveryThreadGetsItsTurn(s: Sched, t: int) returns (k: nat)
    requires Ok(s) && t in s.run
    ensures 0 < k <= |s.run| && Picks(s, k).cur == t
    ensures forall j :: 0 < j <= |s.run| && Picks(s, j).cur == t ==> j == k
  {
    hide Ok, Picks, RotateTimes;
    assert Distinct(s.run) by { OkDistinct(s); }
    k := RoundRobin(s.run, t);
    PicksRotate(s, k);
    forall j | 0 < j <= |s.run| && Picks(s, j).cur == t ensures j == k { PicksRotate(s, j); }
  }

  lemma OkDistinct(s: Sched)
    requires Ok(s)
    ensures Distinct(s.run)
  {
    RunDistinct(s);
  }

  // ---- When a call goes wrong ---------------------------------------

  /** Threads 1 and 2, with the given records and lists. */
  function Two(one: Tcb, two: Tcb, run: seq<int>, wait: seq<int>, sleep: seq<int>, cur: int, ticks: nat, targets: map<int, int>): Sched {
    Sched(map[0 := Tcb(Runnable, 0), 1 := one, 2 := two], {1, 2}, run, wait, sleep, [], cur, 0, ticks, 3, targets)
  }

  function Pair(one: Tcb, two: Tcb, run: seq<int>, sleep: seq<int>, cur: int): Sched {
    Two(one, two, run, [], sleep, cur, 0, map[])
  }

  const READY: Tcb := Tcb(Runnable, 0)
  const ACTIVE: Tcb := Tcb(Running, 0)

  lemma TwoSpawned()
    ensures Spawn(Spawn(Init())) == Pair(READY, READY, [1, 2], [], NO_THREAD)
  {
  }

  lemma SecondPicked(s: Sched)
    requires s == Pair(READY, READY, [1, 2], [], NO_THREAD) && Ok(s)
    ensures Switch(s) == Pair(READY, ACTIVE, [2, 1], [], 2)
  {
    hide Partition, Sorted, AllAfter;
    assert Rotate(s.run) == [2, 1];
  }

  lemma SecondSleeps(s: Sched)
    requires s == Pair(READY, ACTIVE, [2, 1], [], 2)
    ensures SleepFor(s, 5) == Pair(READY, Tcb(Sleeping, 5), [1], [2], 2) && Enabled(s, SleepOp(5)) && Executing(s)
  {
    assert Unlink([2, 1], 2) == [1];
    assert Insert([], 2, 0) == [2];
  }

  lemma FirstPicked(s: Sched)
    requires s == Pair(READY, Tcb(Sleeping, 5), [1], [2], 2) && Ok(s)
    ensures Switch(s) == Pair(ACTIVE, Tcb(Sleeping, 5), [1], [2], 1)
  {
    hide Partition, Sorted, AllAfter;
  }

  lemma FirstUnsafe(s: Sched)
    requires s == Pair(ACTIVE, Tcb(Sleeping, 5), [1], [2], 1)
    ensures Calling(s) && s.cur in s.threads && !Safe(s, s.cur)
  {
  }

  /** A thread that makes itself runnable while another one sleeps is such a case. */
  lemma UnsafeCallReachable() returns (ops: seq<Op>, s: Sched)
    ensures Reaches(Init(), ops, s) && Ok(s) && Calling(s) && s.cur in s.threads && !Safe(s, s.cur)
  {
    hide Ok, Spawn, Switch, SleepFor, Init, Safe, Executing;
    InitOk();
    var s1 := Spawn(Init());
    SpawnOk(Init());
    SpawnOk(s1);
    TwoSpawned();
    var s2 := Spawn(s1);
    SecondPicked(s2);
    SwitchOk(s2);
    var s3 := Step(s2, YieldOp);
    SecondSleeps(s3);
    SleepForOk(s3, 5);
    var s4 := SleepFor(s3, 5);
    FirstPicked(s4);
    SwitchOk(s4);
    s := Step(s4, YieldOp);
    FirstUnsafe(s);
    hide Reaches;
    ReachesSelf(s);
    FirstDo(s4, YieldOp, [], s);
    FirstDo(s3, SleepOp(5), [YieldOp], s);
    ops := [SleepOp(5)] + [YieldOp];
    FirstDo(s2, YieldOp, ops, s);
    ops := [YieldOp] + ops;
    FirstDo(s1, SpawnOp, ops, s);
    ops := [SpawnOp] + ops;
    FirstDo(Init(), SpawnOp, ops, s);
    ops := [SpawnOp] + ops;
  }

  /**
    A thread descheduled by a thread that runs without being in the runnable pool gets a second
    place: after a late switch the next deschedule keeps the pools in step exactly when the
    target had stayed runnable.
  */
  lemma LateSwitchThenDeschedule(s: Sched, t: int)
    requires Ok(s) && t in s.threads
    ensures var s' := SwitchTo(s, t); s'.cur == t && (Partition(Deschedule(s')) <==> t in s.run)
  {
    hide Labels, Sorted, AllAfter, Unlink;
    var s' := SwitchTo(s, t);
    OnePool(s, t);
    if t in s.run {
      SwitchToOk(s, t);
      DescheduleOk(s');
    } else {
      UnlinkAbsent(s.run, t);
      assert multiset(s.wait + [t])[t] == multiset(s.wait)[t] + 1;
      if Partition(Deschedule(s')) { OnePool(Deschedule(s'), t); }
    }
  }

  lemma {:induction false} UnlinkAbsent(l: seq<int>, t: int)
    requires t !in l
    ensures Unlink(l, t) == l
  {
    if l != [] {
      assert l == [l[0]] + l[1..];
      UnlinkAbsent(l[1..], t);
    }
  }

  /** The next deschedule puts the running thread into a second pool. */
  ghost predicate BreaksNext(s: Sched) {
    s.cur in s.threads && s.cur in s.tcbs && !Partition(Deschedule(s))
  }

  const PARKED: Tcb := Tcb(Waiting, 0)

  lemma FirstChecked(s: Sched)
    requires s == Pair(READY, ACTIVE, [2, 1], [], 2)
    ensures CheckTarget(s, 1) == Two(READY, ACTIVE, [2, 1], [], [], 2, 0, map[2 := 1]) && Enabled(s, CheckOp(1))
  {
  }

  lemma TickBetween(s: Sched)
    requires s == Two(READY, ACTIVE, [2, 1], [], [], 2, 0, map[2 := 1]) && Ok(s)
    ensures Tick(s) == Two(ACTIVE, READY, [1, 2], [], [], 1, 1, map[2 := 1])
  {
    hide Partition, Sorted, AllAfter;
    TickWakes(s);
    assert Rotate(s.run) == [1, 2];
  }

  lemma TargetLeaves(s: Sched)
    requires s == Two(ACTIVE, READY, [1, 2], [], [], 1, 1, map[2 := 1])
    ensures Enabled(s, DescheduleOp) && Deschedule(s) == Two(PARKED, READY, [2], [1], [], 1, 1, map[2 := 1])
  {
    assert Unlink([1, 2], 1) == [2];
  }

  lemma SecondBack(s: Sched)
    requires s == Two(PARKED, READY, [2], [1], [], 1, 1, map[2 := 1]) && Ok(s)
    ensures Switch(s) == Two(PARKED, ACTIVE, [2], [1], [], 2, 1, map[2 := 1]) && Enabled(s, YieldOp)
  {
    hide Partition, Sorted, AllAfter;
  }

  /** Thread 2 has found thread 1 runnable and is about to switch to it, but thread 1 waits by now. */
  lemma LateSwitchReachable() returns (ops: seq<Op>, s: Sched)
    ensures Reaches(Init(), ops, s) && Ok(s) && Executing(s) && s.cur in s.targets && s.targets[s.cur] in s.wait
    ensures !Ok(SwitchPending(s)) && BreaksNext(SwitchPending(s))
  {
    hide BreaksNext, SwitchPending;
    hide Ok, Spawn, Switch, Init, Deschedule, CheckTarget, Tick, Executing;
    InitOk();
    var s1 := Spawn(Init());
    SpawnOk(Init());
    SpawnOk(s1);
    TwoSpawned();
    var s2 := Spawn(s1);
    SecondPicked(s2);
    SwitchOk(s2);
    var s3 := Switch(s2);
    FirstChecked(s3);
    StepOk(s3, CheckOp(1));
    var s4 := Step(s3, CheckOp(1));
    TickBetween(s4);
    StepOk(s4, TickOp);
    var s5 := Step(s4, TickOp);
    TargetLeaves(s5);
    StepOk(s5, DescheduleOp);
    var s6 := Step(s5, DescheduleOp);
    SecondBack(s6);
    StepOk(s6, YieldOp);
    s := Step(s6, YieldOp);
    assert Executing(s) by { SwitchOk(s6); }
    LateSwitch(s);
    hide Reaches, Step;
    ReachesSelf(s);
    FirstDo(s6, YieldOp, [], s);
    FirstDo(s5, DescheduleOp, [YieldOp], s);
    ops := [DescheduleOp] + [YieldOp];
    FirstDo(s4, TickOp, ops, s);
    ops := [TickOp] + ops;
    FirstDo(s3, CheckOp(1), ops, s);
    ops := [CheckOp(1)] + ops;
    FirstDo(s2, YieldOp, ops, s);
    ops := [YieldOp] + ops;
    FirstDo(s1, SpawnOp, ops, s);
    ops := [SpawnOp] + ops;
    FirstDo(Init(), SpawnOp, ops, s);
    ops := [SpawnOp] + ops;
  }

  lemma LateSwitch(s: Sched)
    requires s == Two(PARKED, ACTIVE, [2], [1], [], 2, 1, map[2 := 1]) && Ok(s)
    ensures !Ok(SwitchPending(s)) && BreaksNext(SwitchPending(s))
  {
    hide Ok, Deschedule;
    var s' := s.(targets := s.targets - {2});
    YieldsFree(s, s'.targets);
    SwitchToExact(s', 1);
    LateSwitchThenDeschedule(s', 1);
  }

  lemma ReachesSelf(s: Sched)
    ensures Reaches(s, [], s)
  {
  }

  lemma FirstDo(s: Sched, op: Op, ops: seq<Op>, s': Sched)
    requires Ok(s) && Enabled(s, op) && Reaches(Step(s, op), ops, s')
    ensures Reaches(s, [op] + ops, s')
  {
    hide Ok, Enabled, Step;
    assert ([op] + ops)[1..] == ops;
  }
}
