/**
  Who gets the processor.  The runnable pool is a queue that every switch turns by one place,
  so a thread comes nearer to its turn with each switch and never falls back; but a switch made
  when the head is not the running thread passes that head over.
*/
module Fairness {
  import opened Lists
  import opened Pools
  import opened SchedulerRuns

  /** How many elements come before the first `t`. */
  function Ahead(l: seq<int>, t: int): (k: nat)
    ensures k <= |l| && (k < |l| ==> l[k] == t) && (t in l <==> k < |l|)
  {
    if l == [] || l[0] == t then 0 else 1 + Ahead(l[1..], t)
  }

  lemma {:induction false} AheadUnlink(l: seq<int>, x: int, t: int)
    requires t in l && x != t
    ensures t in Unlink(l, x) && Ahead(Unlink(l, x), t) <= Ahead(l, t)
  {
    assert l == [l[0]] + l[1..];
    if l[0] != x && l[0] != t { AheadUnlink(l[1..], x, t); }
  }

  lemma {:induction false} AheadAppend(l: seq<int>, more: seq<int>, t: int)
    requires t in l
    ensures t in l + more && Ahead(l + more, t) == Ahead(l, t)
  {
    assert l == [l[0]] + l[1..];
    if l[0] != t {
      AheadAppend(l[1..], more, t);
      assert (l + more)[1..] == l[1..] + more;
    }
  }

  /** A turn of the queue brings everybody but the head one place forward, and the head to the end. */
  lemma AheadRotate(l: seq<int>, t: int)
    requires t in l
    ensures t in Rotate(l)
    ensures l[0] != t ==> Ahead(Rotate(l), t) == Ahead(l, t) - 1
  {
    if |l| > 1 {
      assert l == [l[0]] + l[1..];
      if l[0] != t { AheadAppend(l[1..], [l[0]], t); }
    }
  }

  predicate Switches(op: Op) { op.YieldOp? || op.TickOp? }

  /** The operation takes the running thread out of the runnable pool. */
  predicate Leaves(op: Op) { op.DescheduleOp? || op.SleepOp? || op.VanishOp? }

  lemma MakeRunnableAhead(s: Sched, u: int, t: int)
    requires Ok(s) && t in s.run && u in s.tcbs && Safe(s, u)
    ensures var s' := MakeRunnable(s, u); t in s'.run && Ahead(s'.run, t) <= Ahead(s.run, t)
  {
    AheadAppend(s.run, [u], t);
  }

  /** Whatever else happens, a runnable thread does not fall back, unless it leaves the pool itself. */
  lemma StaysAhead(s: Sched, op: Op, t: int)
    requires Ok(s) && Enabled(s, op) && t in s.run && !Switches(op) && !(Leaves(op) && t == s.cur)
    ensures var s' := Step(s, op); t in s'.run && Ahead(s'.run, t) <= Ahead(s.run, t)
  {
    hide Labels, Sorted, AllAfter, Partition, Unlink, Ids, Switch, Executing, Safe, MakeRunnable, SortedPlace, Ahead, WakeDue;
    Records(s);
    match op {
      case SpawnOp => AheadAppend(s.run, [s.nextTid], t);
      case DescheduleOp => if s.cur in s.threads { AheadUnlink(s.run, s.cur, t); }
      case MakeRunnableOp(u) => if u in s.tcbs { MakeRunnableAhead(s, u, t); }
      case SleepOp(n) => if s.cur in s.threads { AheadUnlink(s.run, s.cur, t); }
      case VanishOp => if s.cur in s.threads { AheadUnlink(s.run, s.cur, t); }
      case CheckOp(u) =>
      case SwitchToOp =>
      case ReapOp => if s.zombie != [] {
        var z := s.zombie[0];
        assert z in s.zombie;
        OnePool(s, z);
        OnePool(s, t);
        assert t != z;
        AheadUnlink(s.run, z, t);
      }
    }
  }

  /** What a switch turns: the runnable pool, after the sleepers that a tick wakes have been appended. */
  function Turned(s: Sched, op: Op): seq<int>
    requires Ok(s) && Switches(op)
  {
    if op.TickOp? then WakeDue(s.(ticks := s.ticks + 1)).run else s.run
  }

  lemma TurnedAhead(s: Sched, op: Op, t: int)
    requires Ok(s) && Switches(op) && t in s.run
    ensures t in Turned(s, op) && Ahead(Turned(s, op), t) == Ahead(s.run, t) && Turned(s, op)[0] == s.run[0] && |Turned(s, op)| >= |s.run|
  {
    hide Ok, Ahead, WakeDue;
    if op.TickOp? {
      var s1 := s.(ticks := s.ticks + 1);
      TickDue(s);
      var k := WakeDueOk(s1);
      AheadAppend(s.run, s.sleep[..k], t);
    }
  }

  lemma SwitchTurns(s: Sched, op: Op)
    requires Ok(s) && Enabled(s, op) && Switches(op) && s.run != []
    ensures Step(s, op).run == Rotate(Turned(s, op)) && Step(s, op).run != [] && Step(s, op).cur == Step(s, op).run[0]
  {
    hide Ok, Switch, Rotate, WakeDue;
    RunHead(s);
    TurnedAhead(s, op, s.run[0]);
    RotateBag(Turned(s, op));
    if op.TickOp? {
      TickWakes(s);
      SwitchOk(WakeDue(s.(ticks := s.ticks + 1)));
    } else {
      SwitchOk(s);
    }
    assert |Rotate(Turned(s, op))| == |Turned(s, op)| by { RotateSize(Turned(s, op)); }
  }

  lemma RunHead(s: Sched)
    requires s.run != []
    ensures s.run[0] in s.run
  {
  }

  lemma RotateSize(l: seq<int>)
    ensures |Rotate(l)| == |l|
  {
  }

  /**
    A switch brings every runnable thread but the head one place nearer, and the next in line
    runs.  The head goes to the end, whether it has been running or not.
  */
  lemma SwitchAhead(s: Sched, op: Op, t: int)
    requires Ok(s) && Enabled(s, op) && Switches(op) && t in s.run
    ensures var s' := Step(s, op);
      && t in s'.run
      && (Ahead(s.run, t) > 0 ==> Ahead(s'.run, t) == Ahead(s.run, t) - 1)
      && (Ahead(s.run, t) == 1 ==> s'.cur == t)
      && (Ahead(s.run, t) == 0 ==> s'.run[|s'.run| - 1] == t)
  {
    hide Ok, Step;
    SwitchTurns(s, op);
    TurnedAhead(s, op, t);
    AheadRotate(Turned(s, op), t);
  }

  /** The head of the runnable pool is not the running thread: the next switch passes it over. */
  predicate AboutToMiss(s: Sched, t: int) { s.run != [] && s.run[0] == t && s.cur != t }

  /** A thread goes from waiting for its turn to the end of the queue exactly when it is such a head, and not alone. */
  lemma MissesExactly(s: Sched, t: int)
    requires Ok(s) && t in s.run && t != s.cur
    ensures var s' := Switch(s);
      s'.cur != t && Ahead(s'.run, t) >= Ahead(s.run, t) <==> AboutToMiss(s, t) && |s.run| > 1
  {
    hide Ok, Switch;
    SwitchOk(s);
    AheadRotate(s.run, t);
    if Ahead(s.run, t) == 0 && |s.run| > 1 { assert Distinct(s.run) by { OkDistinct(s); } }
  }

  /** The thread gets the processor, leaves the pool by itself, or is about to be passed over. */
  predicate Settled(s: Sched, t: int) { s.cur == t || AboutToMiss(s, t) }

  function Count(ops: seq<Op>): nat { if ops == [] then 0 else (if Switches(ops[0]) then 1 else 0) + Count(ops[1..]) }

  /**
    Bounded waiting: with `k` others ahead of it, a runnable thread runs before `k` switches have
    been made, or else at some point it is at the head without running and misses its turn.
  */
  lemma {:induction false} GetsTurn(s: Sched, ops: seq<Op>, s': Sched, t: int) returns (i: nat, a: Sched)
    requires Ok(s) && Reaches(s, ops, s') && t in s.run && Count(ops) >= Ahead(s.run, t)
    ensures i <= |ops| && Reaches(s, ops[..i], a) && Settled(a, t) && Count(ops[..i]) <= Ahead(s.run, t)
    decreases |ops|
  {
    hide Ok, Enabled, Step, Reaches;
    if Settled(s, t) {
      i, a := 0, s;
      ReachesSelf(s);
      assert ops[..0] == [];
    } else {
      assert Ahead(s.run, t) > 0;
      var op, s1 := ops[0], s;
      s1 := FirstStep(s, ops, s');
      StepOk(s, op);
      if Switches(op) { SwitchAhead(s, op, t); } else { StaysAhead(s, op, t); }
      var j;
      j, a := GetsTurn(s1, ops[1..], s', t);
      i := j + 1;
      FirstDo(s, op, ops[1..][..j], a);
      assert ops[..i] == [op] + ops[1..][..j];
    }
  }

  lemma FirstStep(s: Sched, ops: seq<Op>, s': Sched) returns (s1: Sched)
    requires Reaches(s, ops, s') && ops != []
    ensures Ok(s) && Enabled(s, ops[0]) && s1 == Step(s, ops[0]) && Reaches(s1, ops[1..], s')
  {
    s1 := Step(s, ops[0]);
  }

  // ---- Starvation ----------------------------------------------------------

  /** Throughout the run thread `t` is runnable and does not run. */
  ghost predicate Overlooked(s: Sched, ops: seq<Op>, s': Sched, t: int)
    decreases |ops|
  {
    && t in s.run && s.cur != t
    && if ops == [] then s' == s else Ok(s) && Enabled(s, ops[0]) && Overlooked(Step(s, ops[0]), ops[1..], s', t)
  }

  lemma FirstOverlooked(s: Sched, op: Op, ops: seq<Op>, s': Sched, t: int)
    requires Ok(s) && Enabled(s, op) && t in s.run && s.cur != t && Overlooked(Step(s, op), ops, s', t)
    ensures Overlooked(s, [op] + ops, s', t)
  {
    hide Ok, Enabled, Step;
    assert ([op] + ops)[1..] == ops;
  }

  function Record(t: int, cur: int): Tcb { if t == cur then ACTIVE else READY }

  /** Threads 1, 2 and 3 with their records and the runnable and waiting pools. */
  function Trio(one: Tcb, two: Tcb, three: Tcb, run: seq<int>, wait: seq<int>, cur: int): Sched {
    Sched(map[0 := READY, 1 := one, 2 := two, 3 := three], {1, 2, 3}, run, wait, [], [], cur, 0, 0, 4, map[])
  }

  /** Thread `a` runs, `b` has been made runnable, and 3 is between them. */
  function Hands(a: int, b: int): Sched { Trio(Record(1, a), Record(2, a), READY, [a, 3, b], [], a) }

  /** Thread `a` has gone waiting. */
  function Gone(a: int, b: int): Sched {
    Trio(if a == 1 then PARKED else READY, if a == 2 then PARKED else READY, READY, [3, b], [a], a)
  }

  /** Thread `b` runs in its place: 3 was at the head and has been passed over. */
  function Passed(a: int, b: int): Sched {
    Trio(if a == 1 then PARKED else ACTIVE, if a == 2 then PARKED else ACTIVE, READY, [b, 3], [a], b)
  }

  predicate Partners(a: int, b: int) { (a == 1 && b == 2) || (a == 2 && b == 1) }

  lemma ThirdWaits(a: int, b: int)
    requires Partners(a, b)
    ensures 3 in Hands(a, b).run && 3 in Gone(a, b).run && 3 in Passed(a, b).run
    ensures Hands(a, b).cur != 3 && Gone(a, b).cur != 3 && Passed(a, b).cur != 3
  {
  }

  lemma GoesWaiting(a: int, b: int)
    requires Partners(a, b) && Ok(Hands(a, b))
    ensures Enabled(Hands(a, b), DescheduleOp) && Step(Hands(a, b), DescheduleOp) == Gone(a, b)
  {
    hide Ok;
    assert Unlink([a, 3, b], a) == [3, b];
    assert [] + [a] == [a];
  }

  lemma PassesOver(a: int, b: int)
    requires Partners(a, b) && Ok(Gone(a, b))
    ensures Enabled(Gone(a, b), YieldOp) && Step(Gone(a, b), YieldOp) == Passed(a, b)
  {
    hide Partition, Sorted, AllAfter;
    assert Rotate([3, b]) == [b, 3];
  }

  lemma ComesBack(a: int, b: int)
    requires Partners(a, b) && Ok(Passed(a, b))
    ensures Enabled(Passed(a, b), MakeRunnableOp(a)) && Step(Passed(a, b), MakeRunnableOp(a)) == Hands(b, a)
  {
    hide Ok;
    assert Unlink([a], a) == [];
    assert [b, 3] + [a] == [b, 3, a];
  }

  lemma RoundOk(a: int, b: int)
    requires Partners(a, b) && Ok(Hands(a, b))
    ensures Ok(Gone(a, b)) && Ok(Passed(a, b)) && Ok(Hands(b, a))
    ensures Enabled(Hands(a, b), DescheduleOp) && Step(Hands(a, b), DescheduleOp) == Gone(a, b)
    ensures Enabled(Gone(a, b), YieldOp) && Step(Gone(a, b), YieldOp) == Passed(a, b)
    ensures Enabled(Passed(a, b), MakeRunnableOp(a)) && Step(Passed(a, b), MakeRunnableOp(a)) == Hands(b, a)
  {
    hide Ok, Step, Enabled, Hands, Gone, Passed;
    GoesWaiting(a, b);
    StepOk(Hands(a, b), DescheduleOp);
    PassesOver(a, b);
    StepOk(Gone(a, b), YieldOp);
    ComesBack(a, b);
    StepOk(Passed(a, b), MakeRunnableOp(a));
  }

  /** Thread `a` waits, `b` runs and makes it runnable again. */
  lemma HandsOver(a: int, b: int, ops: seq<Op>, s: Sched) returns (ops': seq<Op>)
    requires Partners(a, b) && Ok(Hands(a, b)) && Overlooked(Hands(b, a), ops, s, 3)
    ensures Overlooked(Hands(a, b), ops', s, 3) && Count(ops') == Count(ops) + 1
  {
    hide Ok, Step, Enabled, Overlooked, Hands, Gone, Passed;
    RoundOk(a, b);
    ThirdWaits(a, b);
    FirstOverlooked(Passed(a, b), MakeRunnableOp(a), ops, s, 3);
    FirstOverlooked(Gone(a, b), YieldOp, [MakeRunnableOp(a)] + ops, s, 3);
    ops' := [YieldOp] + ([MakeRunnableOp(a)] + ops);
    FirstOverlooked(Hands(a, b), DescheduleOp, ops', s, 3);
    ops' := [DescheduleOp] + ops';
    CountFirst(DescheduleOp, [YieldOp] + ([MakeRunnableOp(a)] + ops));
    CountFirst(YieldOp, [MakeRunnableOp(a)] + ops);
    CountFirst(MakeRunnableOp(a), ops);
  }

  lemma CountFirst(op: Op, ops: seq<Op>)
    ensures Count([op] + ops) == (if Switches(op) then 1 else 0) + Count(ops)
  {
    assert ([op] + ops)[1..] == ops;
  }

  /** However long the two go on, 3 does not run. */
  lemma {:induction false} HandsOn(a: int, b: int, n: nat) returns (ops: seq<Op>, s: Sched)
    requires Partners(a, b) && Ok(Hands(a, b))
    ensures Overlooked(Hands(a, b), ops, s, 3) && Count(ops) == n
    decreases n
  {
    hide Ok, Hands, Overlooked, Gone, Passed, Step, Enabled;
    if n == 0 {
      ops, s := [], Hands(a, b);
      Nothing(a, b);
    } else {
      RoundOk(a, b);
      ops, s := HandsOn(b, a, n - 1);
      ops := HandsOver(a, b, ops, s);
    }
  }

  lemma Nothing(a: int, b: int)
    requires Partners(a, b)
    ensures Overlooked(Hands(a, b), [], Hands(a, b), 3)
  {
  }

  lemma TrioSpawned()
    ensures Spawn(Spawn(Spawn(Init()))) == Trio(READY, READY, READY, [1, 2, 3], [], NO_THREAD)
  {
  }

  lemma TrioStarts(s: Sched)
    requires s == Trio(READY, READY, READY, [1, 2, 3], [], NO_THREAD) && Ok(s)
    ensures Switch(s) == Hands(2, 1)
  {
    hide Partition, Sorted, AllAfter;
    assert Rotate(s.run) == [2, 3, 1];
  }

  lemma TrioMayYield(s: Sched)
    requires s == Trio(READY, READY, READY, [1, 2, 3], [], NO_THREAD)
    ensures Enabled(s, YieldOp)
  {
  }

  lemma YieldSwitches(s: Sched)
    requires Ok(s) && Enabled(s, YieldOp)
    ensures Step(s, YieldOp) == Switch(s)
  {
  }

  lemma SpawnSteps(s: Sched)
    requires Ok(s)
    ensures Enabled(s, SpawnOp) && Step(s, SpawnOp) == Spawn(s)
  {
  }

  /**
    Starvation: the kernel reaches a state from which, for every `n`, it can go on through `n`
    switches with a thread runnable all the time that never runs.  Two others hand the processor
    to each other by `deschedule` and `make_runnable`, and each switch passes the third over.
  */
  lemma Starves(n: nat) returns (before: seq<Op>, s: Sched, ops: seq<Op>, s': Sched)
    ensures Reaches(Init(), before, s) && Overlooked(s, ops, s', 3) && Count(ops) == n
  {
    hide Ok, Spawn, Switch, Init, Hands, Overlooked, Count, Trio, Step;
    InitOk();
    SpawnOk(Init());
    SpawnOk(Spawn(Init()));
    SpawnOk(Spawn(Spawn(Init())));
    var s3 := Spawn(Spawn(Spawn(Init())));
    TrioSpawned();
    TrioStarts(s3);
    assert Enabled(s3, YieldOp) by { TrioMayYield(s3); }
    s := Step(s3, YieldOp);
    StepOk(s3, YieldOp);
    YieldSwitches(s3);
    ops, s' := HandsOn(2, 1, n);
    hide Reaches;
    ReachesSelf(s);
    FirstDo(s3, YieldOp, [], s);
    SpawnSteps(Init());
    SpawnSteps(Spawn(Init()));
    SpawnSteps(Spawn(Spawn(Init())));
    FirstDo(Spawn(Spawn(Init())), SpawnOp, [YieldOp], s);
    before := [SpawnOp] + [YieldOp];
    FirstDo(Spawn(Init()), SpawnOp, before, s);
    before := [SpawnOp] + before;
    FirstDo(Init(), SpawnOp, before, s);
    before := [SpawnOp] + before;
  }
}
