/**
  The scheduler's state as a value: thread records, the thread table and the four pools, and
  what every scheduling operation does to them.  The theorems are about every run.
*/
module Pools {
  import opened Lists

  datatype Status = Runnable | Waiting | Zombie | Running | Sleeping

  datatype Tcb = Tcb(status: Status, wakeup: nat)

  const MAX_INT: nat := 0x7FFF_FFFF
  const NO_THREAD: int := -1

  /**
    `threads` is the domain of the thread table; the idle thread is not in it.  `targets` holds,
    for each thread inside `thr_yield` that has found its target runnable and has not switched
    yet, that target: a local variable on the thread's kernel stack.
  */
  datatype Sched = Sched(
    tcbs: map<int, Tcb>, threads: set<int>,
    run: seq<int>, wait: seq<int>, sleep: seq<int>, zombie: seq<int>,
    cur: int, idle: int, ticks: nat, nextTid: int, targets: map<int, int>)

  // ---- Invariant -----------------------------------------------------------

  /** Each thread of the table has one node, in one of the four pools. */
  ghost predicate Partition(s: Sched) {
    multiset(s.run) + multiset(s.wait) + multiset(s.sleep) + multiset(s.zombie) == multiset(s.threads)
  }

  predicate Ids(s: Sched) {
    && s.threads <= s.tcbs.Keys && (forall t :: t in s.tcbs ==> 0 <= t < s.nextTid)
    && s.idle in s.tcbs && s.idle !in s.threads && (s.cur == NO_THREAD || s.cur in s.tcbs) && s.cur !in s.zombie
  }

  function StatusOf(s: Sched, t: int): Status { if t in s.tcbs then s.tcbs[t].status else Zombie }

  /** Statuses fit the pools; a thread woken by the clock stays SLEEPING until it runs. */
  predicate Labels(s: Sched) {
    && (forall t :: t in s.run ==> StatusOf(s, t).Runnable? || StatusOf(s, t).Running? || StatusOf(s, t).Sleeping?)
    && (forall t :: t in s.wait ==> StatusOf(s, t).Waiting?)
    && (forall t :: t in s.sleep ==> StatusOf(s, t).Sleeping?)
    && (forall t :: t in s.zombie ==> StatusOf(s, t).Zombie?)
    && (forall t :: t in s.threads && StatusOf(s, t).Running? ==> t == s.cur)
  }

  function WakeIn(tcbs: map<int, Tcb>, t: int): nat { if t in tcbs then tcbs[t].wakeup else 0 }

  function Wake(s: Sched, t: int): nat { WakeIn(s.tcbs, t) }

  ghost predicate Ascending(l: seq<int>, tcbs: map<int, Tcb>) {
    forall i, j :: 0 <= i < j < |l| ==> WakeIn(tcbs, l[i]) <= WakeIn(tcbs, l[j])
  }

  ghost predicate Sorted(s: Sched) { Ascending(s.sleep, s.tcbs) }

  ghost predicate AllAfter(s: Sched, now: nat) { forall t :: t in s.sleep ==> Wake(s, t) > now }

  ghost predicate Ok(s: Sched) { Partition(s) && Ids(s) && Labels(s) && Sorted(s) && AllAfter(s, s.ticks) }

  /** A thread is executing kernel code on its own behalf. */
  predicate Executing(s: Sched) { s.cur == s.idle || (s.cur in s.run && StatusOf(s, s.cur).Running?) }

  /** The executing thread is not in the middle of a `yield`. */
  predicate Calling(s: Sched) { Executing(s) && s.cur !in s.targets }

  /** One thread, one pool; and the pool sizes add up to the size of the table. */
  lemma OnePool(s: Sched, t: int)
    requires Partition(s)
    ensures t in s.threads <==> t in s.run || t in s.wait || t in s.sleep || t in s.zombie
    ensures t in s.run ==> t !in s.wait && t !in s.sleep && t !in s.zombie
    ensures t in s.wait ==> t !in s.sleep && t !in s.zombie
    ensures t in s.sleep ==> t !in s.zombie
    ensures multiset(s.run)[t] <= 1 && multiset(s.wait)[t] <= 1 && multiset(s.sleep)[t] <= 1 && multiset(s.zombie)[t] <= 1
    ensures |s.run| + |s.wait| + |s.sleep| + |s.zombie| == |s.threads|
  {
    var a, b, c, d := multiset(s.run), multiset(s.wait), multiset(s.sleep), multiset(s.zombie);
    var all := a + b + c + d;
    assert all[t] == multiset(s.threads)[t] <= 1;
    assert all[t] == a[t] + b[t] + c[t] + d[t];
    assert |all| == |a| + |b| + |c| + |d|;
  }

  // ---- Lists as multisets --------------------------------------------------

  lemma {:induction false} UnlinkBag(s: seq<int>, x: int)
    ensures multiset(Unlink(s, x)) == multiset(s) - multiset{x}
  {
    if s != [] {
      assert s == [s[0]] + s[1..];
      if s[0] != x { UnlinkBag(s[1..], x); }
    }
  }

  function Insert(s: seq<int>, x: int, k: nat): seq<int>
    requires k <= |s|
  {
    s[..k] + [x] + s[k..]
  }

  lemma InsertBag(s: seq<int>, x: int, k: nat)
    requires k <= |s|
    ensures multiset(Insert(s, x, k)) == multiset(s) + multiset{x}
  {
    assert s == s[..k] + s[k..];
  }

  function Rotate(s: seq<int>): seq<int> { if |s| <= 1 then s else s[1..] + [s[0]] }

  lemma RotateBag(s: seq<int>)
    ensures multiset(Rotate(s)) == multiset(s)
  {
    if |s| > 1 { assert s == [s[0]] + s[1..]; }
  }

  function RotateTimes(s: seq<int>, k: nat): (r: seq<int>)
    ensures |r| == |s|
  {
    if k == 0 then s else Rotate(RotateTimes(s, k - 1))
  }

  lemma {:induction false} RotateTimesSplit(s: seq<int>, k: nat)
    requires k <= |s|
    ensures RotateTimes(s, k) == s[k..] + s[..k]
  {
    if k > 0 {
      RotateTimesSplit(s, k - 1);
      var r := s[k - 1..] + s[..k - 1];
      assert r[0] == s[k - 1];
      if |s| > 1 {
        assert r[1..] + [r[0]] == s[k..] + s[..k];
      } else {
        assert s[k..] + s[..k] == s && r == s;
      }
    }
  }

  // ---- Operations ----------------------------------------------------------

  function SetStatus(s: Sched, t: int, st: Status): Sched
    requires t in s.tcbs
  {
    s.(tcbs := s.tcbs[t := s.tcbs[t].(status := st)])
  }

  /** A new runnable thread at the end of the runnable pool. */
  function Spawn(s: Sched): Sched {
    s.(tcbs := s.tcbs[s.nextTid := Tcb(Runnable, 0)], threads := s.threads + {s.nextTid},
       run := s.run + [s.nextTid], nextTid := s.nextTid + 1)
  }

  /** The running thread moves to the waiting pool. */
  function Deschedule(s: Sched): Sched
    requires s.cur in s.threads && s.cur in s.tcbs
  {
    SetStatus(s.(run := Unlink(s.run, s.cur), wait := s.wait + [s.cur]), s.cur, Waiting)
  }

  /** Whether `make_runnable` on `t` gets as far as moving a node. */
  predicate Moves(s: Sched, t: int) {
    t in s.threads && !StatusOf(s, t).Runnable? && (StatusOf(s, t).Waiting? || s.sleep != [])
  }

  /** The list that the status of `t` names really holds it. */
  predicate Safe(s: Sched, t: int) {
    Moves(s, t) ==> if StatusOf(s, t).Waiting? then t in s.wait else t in s.sleep
  }

  function MakeRunnable(s: Sched, t: int): Sched
    requires t in s.tcbs && Safe(s, t)
  {
    if !Moves(s, t) then s
    else if StatusOf(s, t).Waiting? then SetStatus(s.(wait := Unlink(s.wait, t), run := s.run + [t]), t, Runnable)
    else SetStatus(s.(sleep := Unlink(s.sleep, t), run := s.run + [t]), t, Runnable)
  }

  /** Where the sorted insertion puts wake time `w`: before a larger head, else in the first gap that fits. */
  ghost predicate InsertAt(s: Sched, w: nat, k: nat) {
    k <= |s.sleep| && (k > 0 ==> Wake(s, s.sleep[k - 1]) <= w) && (k < |s.sleep| ==> w <= Wake(s, s.sleep[k]))
  }

  /** The running thread goes to sleep until tick `w`, at place `k` of the sleeping pool. */
  function SleepAt(s: Sched, w: nat, k: nat): Sched
    requires k <= |s.sleep|
  {
    s.(tcbs := s.tcbs[s.cur := Tcb(Sleeping, w)], run := Unlink(s.run, s.cur), sleep := Insert(s.sleep, s.cur, k))
  }

  /** The running thread becomes a zombie, and nobody is current. */
  function Vanish(s: Sched): Sched
    requires s.cur in s.tcbs
  {
    SetStatus(s.(run := Unlink(s.run, s.cur), zombie := s.zombie + [s.cur]), s.cur, Zombie).(cur := NO_THREAD)
  }

  /** Thread `t` leaves the table and the pool its status names; a SLEEPING one leaves only the table. */
  function Remove(s: Sched, t: int): Sched
    requires t in s.threads && t in s.tcbs
  {
    var s' := s.(threads := s.threads - {t});
    match s.tcbs[t].status
    case Sleeping => s'
    case Waiting => s'.(wait := Unlink(s.wait, t), tcbs := s.tcbs - {t})
    case Zombie => s'.(zombie := Unlink(s.zombie, t), tcbs := s.tcbs - {t})
    case _ => s'.(run := Unlink(s.run, t), tcbs := s.tcbs - {t})
  }

  /** The sleepers at the head whose time is now move to the runnable pool. */
  function WakeDue(s: Sched): Sched
    decreases |s.sleep|
  {
    if s.sleep != [] && Wake(s, s.sleep[0]) == s.ticks
    then WakeDue(s.(sleep := s.sleep[1..], run := s.run + [s.sleep[0]])) else s
  }

  /** The interrupted thread stays where it is; if it was running it is merely runnable now. */
  function Defer(s: Sched): Sched {
    if s.cur in s.tcbs && s.tcbs[s.cur].status.Running? then SetStatus(s, s.cur, Runnable) else s
  }

  function SetRunning(s: Sched, t: int): Sched
    requires t in s.tcbs
  {
    SetStatus(s, t, Running).(cur := t)
  }

  /** Rotate the runnable pool once and run its head, or the idle thread if it is empty. */
  function Switch(s: Sched): Sched
    requires Ok(s)
  {
    var d := Defer(s);
    if d.run == [] then SetRunning(d, d.idle)
    else
      var r := Rotate(d.run);
      var h := r[0];
      assert h == d.run[if |d.run| > 1 then 1 else 0] && h in s.run && !StatusOf(s, h).Zombie?;
      SetRunning(d.(run := r), r[0])
  }

  /** Run `t` next without touching the pools. */
  function SwitchTo(s: Sched, t: int): Sched
    requires t in s.tcbs
  {
    SetRunning(Defer(s), t)
  }

  /** The target of a `yield` has been found runnable; the switch to it is yet to come. */
  function CheckTarget(s: Sched, t: int): Sched {
    if t in s.threads && StatusOf(s, t).Runnable? then s.(targets := s.targets[s.cur := t]) else s
  }

  /** The second half of `yield`, however much later: switch to the target, or to the idle thread if it is gone. */
  function SwitchPending(s: Sched): Sched
    requires s.cur in s.targets && s.threads + {s.idle} <= s.tcbs.Keys
  {
    var t := s.targets[s.cur];
    SwitchTo(s.(targets := s.targets - {s.cur}), if t in s.threads then t else s.idle)
  }

  /** The target is gone or still runnable. */
  predicate TargetReady(s: Sched) {
    s.cur in s.targets && (s.targets[s.cur] in s.threads ==> s.targets[s.cur] in s.run)
  }

  /** One clock interrupt. */
  function Tick(s: Sched): Sched
    requires Ok(s)
  {
    TickWakes(s);
    Switch(WakeDue(s.(ticks := s.ticks + 1)))
  }

  // ---- Every operation keeps the invariant ---------------------------------

  /** All four pools and the records agree except about thread `x`. */
  ghost predicate SameBut(s: Sched, s': Sched, x: int) {
    && (forall t :: t != x ==> (t in s'.run <==> t in s.run) && (t in s'.wait <==> t in s.wait))
    && (forall t :: t != x ==> (t in s'.sleep <==> t in s.sleep) && (t in s'.zombie <==> t in s.zombie))
    && (forall t :: t != x ==> (t in s'.threads <==> t in s.threads) && StatusOf(s', t) == StatusOf(s, t))
  }

  predicate LabelAt(s: Sched, t: int) {
    var st := StatusOf(s, t);
    && (t in s.run ==> st.Runnable? || st.Running? || st.Sleeping?) && (t in s.wait ==> st.Waiting?)
    && (t in s.sleep ==> st.Sleeping?) && (t in s.zombie ==> st.Zombie?) && (t in s.threads && st.Running? ==> t == s.cur)
  }

  lemma LabelsMoved(s: Sched, s': Sched, x: int)
    requires Labels(s) && SameBut(s, s', x) && LabelAt(s', x)
    requires s'.cur == s.cur || (s.cur in s.threads ==> !StatusOf(s', s.cur).Running?)
    ensures Labels(s')
  {
    hide StatusOf;
    forall t ensures LabelAt(s', t) {
      if t != x { assert LabelAt(s, t); }
    }
    hide LabelAt, SameBut;
  }

  lemma UnlinkHas(s: seq<int>, x: int)
    requires multiset(s)[x] <= 1
    ensures forall t :: t in Unlink(s, x) <==> t in s && t != x
  {
    UnlinkBag(s, x);
    var r := Unlink(s, x);
    forall t ensures t in r <==> t in s && t != x { assert t in r <==> t in multiset(r); }
  }

  lemma MoveBag(a: multiset<int>, b: multiset<int>, x: int, rest: multiset<int>, all: multiset<int>)
    requires a + b + rest == all && x in a
    ensures (a - multiset{x}) + (b + multiset{x}) + rest == all
  {
    assert a == (a - multiset{x}) + multiset{x};
  }

  lemma {:induction false} UnlinkAscending(l: seq<int>, tcbs: map<int, Tcb>, x: int)
    requires Ascending(l, tcbs)
    ensures Ascending(Unlink(l, x), tcbs)
  {
    if l != [] && l[0] != x {
      UnlinkAscending(l[1..], tcbs, x);
      UnlinkWithin(l[1..], x);
      var r := Unlink(l[1..], x);
      assert Unlink(l, x) == [l[0]] + r;
      forall j | 0 <= j < |r| ensures WakeIn(tcbs, l[0]) <= WakeIn(tcbs, r[j]) {
        var y := r[j];
        assert y in r && y in l[1..];
        var i :| 0 <= i < |l[1..]| && l[1..][i] == y;
        assert l[i + 1] == y;
      }
    }
  }

  lemma SameAscending(l: seq<int>, tcbs: map<int, Tcb>, tcbs': map<int, Tcb>)
    requires Ascending(l, tcbs) && forall t :: t in l ==> WakeIn(tcbs', t) == WakeIn(tcbs, t)
    ensures Ascending(l, tcbs')
  {
    assert forall i :: 0 <= i < |l| ==> l[i] in l;
  }

  /** Changing the record of a thread outside the sleeping pool does not disturb its order. */
  lemma SleepersKept(s: Sched, s': Sched, x: int)
    requires Sorted(s) && AllAfter(s, s.ticks) && x !in s'.sleep && s'.ticks == s.ticks
    requires forall t :: t != x ==> Wake(s', t) == Wake(s, t)
    requires s'.sleep == s.sleep || s'.sleep == Unlink(s.sleep, x)
    ensures Sorted(s') && AllAfter(s', s'.ticks)
  {
    hide Unlink, WakeIn, Ascending;
    UnlinkAscending(s.sleep, s.tcbs, x);
    UnlinkWithin(s.sleep, x);
    SameAscending(s'.sleep, s.tcbs, s'.tcbs);
  }

  lemma SpawnOk(s: Sched)
    requires Ok(s)
    ensures Ok(Spawn(s)) && s.nextTid !in s.threads
  {
    hide Labels, Sorted, AllAfter;
    var n, s' := s.nextTid, Spawn(s);
    assert n !in s.tcbs;
    OnePool(s, n);
    assert Partition(s') by { assert multiset(s'.threads) == multiset(s.threads) + multiset{n}; }
    LabelsMoved(s, s', n);
    SleepersKept(s, s', n);
  }

  lemma DescheduleOk(s: Sched)
    requires Ok(s) && Executing(s) && s.cur in s.threads
    ensures Ok(Deschedule(s))
  {
    hide Unlink, Labels, Sorted, AllAfter;
    var c, s' := s.cur, Deschedule(s);
    OnePool(s, c);
    UnlinkBag(s.run, c);
    UnlinkHas(s.run, c);
    assert Partition(s') by {
      assert multiset(s'.wait) == multiset(s.wait) + multiset{c};
      MoveBag(multiset(s.run), multiset(s.wait), c, multiset(s.sleep) + multiset(s.zombie), multiset(s.threads));
    }
    assert SameBut(s, s', c);
    assert LabelAt(s', c);
    LabelsMoved(s, s', c);
    SleepersKept(s, s', c);
  }

  lemma WaiterMoved(s: Sched, s': Sched, t: int)
    requires Partition(s) && t in s.wait && s'.wait == Unlink(s.wait, t) && s'.run == s.run + [t]
    requires s'.sleep == s.sleep && s'.zombie == s.zombie && s'.threads == s.threads
    ensures Partition(s')
  {
    UnlinkBag(s.wait, t);
    assert multiset(s'.run) == multiset(s.run) + multiset{t};
    MoveBag(multiset(s.wait), multiset(s.run), t, multiset(s.sleep) + multiset(s.zombie), multiset(s.threads));
  }

  lemma SleeperMoved(s: Sched, s': Sched, t: int)
    requires Partition(s) && t in s.sleep && s'.sleep == Unlink(s.sleep, t) && s'.run == s.run + [t]
    requires s'.wait == s.wait && s'.zombie == s.zombie && s'.threads == s.threads
    ensures Partition(s')
  {
    UnlinkBag(s.sleep, t);
    assert multiset(s'.run) == multiset(s.run) + multiset{t};
    MoveBag(multiset(s.sleep), multiset(s.run), t, multiset(s.wait) + multiset(s.zombie), multiset(s.threads));
  }

  lemma FromWaitingOk(s: Sched, t: int)
    requires Ok(s) && t in s.wait && t in s.tcbs
    ensures Ok(SetStatus(s.(wait := Unlink(s.wait, t), run := s.run + [t]), t, Runnable))
  {
    hide Unlink, Labels, Sorted, AllAfter, Partition;
    var s' := SetStatus(s.(wait := Unlink(s.wait, t), run := s.run + [t]), t, Runnable);
    OnePool(s, t);
    UnlinkHas(s.wait, t);
    WaiterMoved(s, s', t);
    assert SameBut(s, s', t) && LabelAt(s', t);
    LabelsMoved(s, s', t);
    SleepersKept(s, s', t);
  }

  lemma FromSleepingOk(s: Sched, t: int)
    requires Ok(s) && t in s.sleep && t in s.tcbs
    ensures Ok(SetStatus(s.(sleep := Unlink(s.sleep, t), run := s.run + [t]), t, Runnable))
  {
    hide Unlink, Labels, Sorted, AllAfter, Partition;
    var s' := SetStatus(s.(sleep := Unlink(s.sleep, t), run := s.run + [t]), t, Runnable);
    OnePool(s, t);
    UnlinkHas(s.sleep, t);
    SleeperMoved(s, s', t);
    assert SameBut(s, s', t) && LabelAt(s', t);
    LabelsMoved(s, s', t);
    SleepersKept(s, s', t);
  }

  lemma MakeRunnableOk(s: Sched, t: int)
    requires Ok(s) && t in s.tcbs && Safe(s, t)
    ensures Ok(MakeRunnable(s, t)) && MakeRunnable(s, t).cur == s.cur
  {
    if Moves(s, t) {
      if StatusOf(s, t).Waiting? { FromWaitingOk(s, t); } else { FromSleepingOk(s, t); }
    }
  }

  lemma InsertAscending(l: seq<int>, tcbs: map<int, Tcb>, t: int, k: nat)
    requires Ascending(l, tcbs) && k <= |l|
    requires k > 0 ==> WakeIn(tcbs, l[k - 1]) <= WakeIn(tcbs, t)
    requires k < |l| ==> WakeIn(tcbs, t) <= WakeIn(tcbs, l[k])
    ensures Ascending(l[..k] + [t] + l[k..], tcbs)
  {
    var r := l[..k] + [t] + l[k..];
    assert forall i :: 0 <= i < k ==> r[i] == l[i];
    assert forall i :: k < i < |r| ==> r[i] == l[i - 1];
    forall i, j | 0 <= i < j < |r| ensures WakeIn(tcbs, r[i]) <= WakeIn(tcbs, r[j]) {
      if i == k && j > k + 1 { assert WakeIn(tcbs, l[k]) <= WakeIn(tcbs, l[j - 1]); }
      if j == k && i < k - 1 { assert WakeIn(tcbs, l[i]) <= WakeIn(tcbs, l[k - 1]); }
    }
  }

  lemma InsertSorted(s: Sched, s': Sched, t: int, w: nat, k: nat)
    requires Sorted(s) && AllAfter(s, s.ticks) && InsertAt(s, w, k) && w > s.ticks == s'.ticks && t !in s.sleep
    requires s'.sleep == Insert(s.sleep, t, k) && Wake(s', t) == w && forall u :: u != t ==> Wake(s', u) == Wake(s, u)
    ensures Sorted(s') && AllAfter(s', s'.ticks)
  {
    hide WakeIn, Ascending;
    InsertHas(s.sleep, t, k);
    SameAscending(s.sleep, s.tcbs, s'.tcbs);
    var l := s.sleep;
    assert forall i :: 0 <= i < |l| ==> l[i] in l;
    InsertAscending(s.sleep, s'.tcbs, t, k);
  }

  lemma SleepOk(s: Sched, w: nat, k: nat)
    requires Ok(s) && Executing(s) && s.cur in s.threads && w > s.ticks && k <= |s.sleep| && InsertAt(s, w, k)
    ensures Ok(SleepAt(s, w, k)) && s.cur in SleepAt(s, w, k).sleep
  {
    hide Unlink, Labels, Sorted, AllAfter, InsertAt;
    var c, s' := s.cur, SleepAt(s, w, k);
    OnePool(s, c);
    UnlinkBag(s.run, c);
    UnlinkHas(s.run, c);
    InsertBag(s.sleep, c, k);
    InsertHas(s.sleep, c, k);
    assert Partition(s') by {
      MoveBag(multiset(s.run), multiset(s.sleep), c, multiset(s.wait) + multiset(s.zombie), multiset(s.threads));
    }
    assert SameBut(s, s', c) && LabelAt(s', c);
    LabelsMoved(s, s', c);
    InsertSorted(s, s', c, w, k);
  }

  lemma InsertHas(s: seq<int>, x: int, k: nat)
    requires k <= |s|
    ensures forall t :: t in Insert(s, x, k) <==> t in s || t == x
  {
    assert s == s[..k] + s[k..];
  }

  lemma VanishOk(s: Sched)
    requires Ok(s) && Executing(s) && s.cur in s.threads
    ensures Ok(Vanish(s))
  {
    hide Unlink, Labels, Sorted, AllAfter;
    var c, s' := s.cur, Vanish(s);
    OnePool(s, c);
    UnlinkBag(s.run, c);
    UnlinkHas(s.run, c);
    assert Partition(s') by {
      assert multiset(s'.zombie) == multiset(s.zombie) + multiset{c};
      MoveBag(multiset(s.run), multiset(s.zombie), c, multiset(s.wait) + multiset(s.sleep), multiset(s.threads));
    }
    assert SameBut(s, s', c) && LabelAt(s', c);
    LabelsMoved(s, s', c);
    SleepersKept(s, s', c);
    assert NO_THREAD !in s'.zombie by {
      OnePool(s', NO_THREAD);
      assert forall t :: t in s.tcbs ==> 0 <= t;
    }
  }

  /** Everything but that the sleepers due now may still be asleep. */
  ghost predicate Due(s: Sched) {
    Partition(s) && Ids(s) && Labels(s) && Sorted(s) && forall t :: t in s.sleep ==> Wake(s, t) >= s.ticks
  }

  function WakeHead(s: Sched): Sched
    requires s.sleep != []
  {
    s.(sleep := s.sleep[1..], run := s.run + [s.sleep[0]])
  }

  lemma WakeHeadOk(s: Sched)
    requires Due(s) && s.sleep != []
    ensures Due(WakeHead(s))
  {
    hide Labels;
    hide WakeIn;
    var s', h := WakeHead(s), s.sleep[0];
    assert s.sleep == [h] + s'.sleep && h in s.sleep;
    OnePool(s, h);
    assert multiset(s.sleep) == multiset{h} + multiset(s'.sleep);
    assert multiset(s'.run) == multiset(s.run) + multiset{h};
    assert multiset(s'.sleep)[h] == 0 && h !in s'.sleep;
    assert SameBut(s, s', h) && LabelAt(s', h) by { HeadAsleep(s); }
    LabelsMoved(s, s', h);
  }

  lemma HeadAsleep(s: Sched)
    requires Labels(s) && s.sleep != []
    ensures StatusOf(s, s.sleep[0]).Sleeping? && s.sleep[0] in s.tcbs
  {
    var h := s.sleep[0];
    assert h in s.sleep;
  }

  /** When the head is not due, nobody is. */
  lemma NobodyDue(s: Sched)
    requires Due(s) && (s.sleep != [] ==> Wake(s, s.sleep[0]) != s.ticks)
    ensures Ok(s) && forall i :: 0 <= i < |s.sleep| ==> Wake(s, s.sleep[i]) > s.ticks
  {
    hide WakeIn, Labels, Partition;
    if s.sleep != [] {
      var h := s.sleep[0];
      assert h in s.sleep;
      forall i | 0 <= i < |s.sleep| ensures Wake(s, s.sleep[i]) > s.ticks {
        assert i > 0 ==> Wake(s, s.sleep[0]) <= Wake(s, s.sleep[i]);
      }
    }
  }

  /**
    The wakeup loop moves exactly the sleepers whose time is now, which are a prefix of the
    pool, and everyone left has a wake time strictly ahead.
  */
  lemma {:induction false} WakeDueOk(s: Sched) returns (k: nat)
    requires Due(s)
    ensures Ok(WakeDue(s)) && k <= |s.sleep|
    ensures WakeDue(s) == s.(sleep := s.sleep[k..], run := s.run + s.sleep[..k])
    ensures forall i :: 0 <= i < |s.sleep| ==> (Wake(s, s.sleep[i]) == s.ticks <==> i < k)
    decreases |s.sleep|
  {
    hide Due, Ok, WakeIn;
    k := 0;
    if s.sleep != [] && Wake(s, s.sleep[0]) == s.ticks {
      WakeHeadOk(s);
      var s1 := WakeHead(s);
      var j := WakeDueOk(s1);
      k := j + 1;
      assert s1.sleep[j..] == s.sleep[k..];
      assert s1.run + s1.sleep[..j] == s.run + s.sleep[..k];
      forall i | 0 <= i < |s.sleep| ensures Wake(s, s.sleep[i]) == s.ticks <==> i < k {
        if i > 0 { assert s1.sleep[i - 1] == s.sleep[i]; }
      }
    } else {
      assert s.run + s.sleep[..0] == s.run;
      NobodyDue(s);
    }
  }

  lemma TickWakes(s: Sched)
    requires Ok(s)
    ensures Ok(WakeDue(s.(ticks := s.ticks + 1)))
  {
    var k := WakeDueOk(s.(ticks := s.ticks + 1));
  }

  lemma DeferOk(s: Sched)
    requires Ok(s)
    ensures Ok(Defer(s)) && forall t :: t in s.threads ==> !StatusOf(Defer(s), t).Running?
  {
    hide Labels, Sorted, AllAfter, Partition;
    var c, s' := s.cur, Defer(s);
    if s' != s {
      OnePool(s, c);
      assert LabelAt(s, c) by { LabelHere(s, c); }
      LabelsMoved(s, s', c);
      PartitionSame(s, s');
      SleepersMarked(s, s', c);
    }
    RunningIsCur(s);
  }

  /** Changing only the status of a record does not disturb the sleeping pool. */
  lemma SleepersMarked(s: Sched, s': Sched, t: int)
    requires Sorted(s) && AllAfter(s, s.ticks) && t in s.tcbs && s'.sleep == s.sleep && s'.ticks == s.ticks
    requires forall u :: Wake(s', u) == Wake(s, u)
    ensures Sorted(s') && AllAfter(s', s'.ticks)
  {
    hide WakeIn, Ascending;
    SameAscending(s.sleep, s.tcbs, s'.tcbs);
  }

  lemma RunningIsCur(s: Sched)
    requires Labels(s)
    ensures forall t :: t in s.threads && StatusOf(s, t).Running? ==> t == s.cur
  {
  }

  lemma LabelHere(s: Sched, t: int)
    requires Labels(s)
    ensures LabelAt(s, t)
  {
  }

  lemma SetRunningOk(s: Sched, t: int)
    requires Ok(s) && t in s.tcbs && (t == s.idle || t in s.run)
    requires forall u :: u in s.threads ==> !StatusOf(s, u).Running?
    ensures Ok(SetRunning(s, t)) && Executing(SetRunning(s, t))
  {
    hide Labels, Sorted, AllAfter, Partition;
    var s' := SetRunning(s, t);
    OnePool(s, t);
    LabelsRun(s, s', t);
    SleepersKept(s, s', t);
    PartitionSame(s, s');
  }

  lemma LabelsRun(s: Sched, s': Sched, t: int)
    requires Labels(s) && t in s.tcbs && s' == SetRunning(s, t) && t !in s.wait && t !in s.sleep && t !in s.zombie
    requires forall u :: u in s.threads ==> !StatusOf(s, u).Running?
    ensures Labels(s')
  {
  }

  lemma PartitionSame(s: Sched, s': Sched)
    requires Partition(s) && multiset(s'.run) == multiset(s.run)
    requires s'.wait == s.wait && s'.sleep == s.sleep && s'.zombie == s.zombie && s'.threads == s.threads
    ensures Partition(s')
  {
  }

  lemma SwitchOk(s: Sched)
    requires Ok(s)
    ensures Ok(Switch(s)) && Executing(Switch(s)) && Switch(s).run == Rotate(s.run)
    ensures Switch(s).cur == if s.run == [] then s.idle else Rotate(s.run)[0]
  {
    hide Ok, Rotate, Executing;
    DeferOk(s);
    var d := Defer(s);
    HasIdle(d);
    RotatedOk(d);
    if d.run == [] {
      SetRunningOk(d, d.idle);
    } else {
      SetRunningOk(d.(run := Rotate(d.run)), Rotate(d.run)[0]);
    }
  }

  lemma HasIdle(s: Sched)
    requires Ok(s)
    ensures s.idle in s.tcbs
  {
  }

  lemma RotatedOk(s: Sched)
    requires Ok(s)
    ensures Ok(s.(run := Rotate(s.run))) && |Rotate(s.run)| == |s.run|
    ensures s.run != [] ==> Rotate(s.run)[0] in Rotate(s.run) && Rotate(s.run)[0] in s.tcbs
  {
    hide Sorted, AllAfter, Partition;
    var s' := s.(run := Rotate(s.run));
    RotateBag(s.run);
    PartitionSame(s, s');
    SameBag(s'.run, s.run);
    SleepersMarked(s, s', s.idle);
    if s.run != [] {
      var h := Rotate(s.run)[0];
      assert h in s'.run && h in s.run;
      OnePool(s, h);
    }
  }

  lemma SameBag(a: seq<int>, b: seq<int>)
    requires multiset(a) == multiset(b)
    ensures forall t :: t in a <==> t in b
  {
    forall t ensures t in a <==> t in b { assert t in a <==> t in multiset(a); }
  }
}
