/**
  The scheduler as the kernel keeps it: one list node per thread, in one of four linked lists
  on the heap, and a chained hash table from thread ids to nodes.  Each operation is tied to
  the step of the pure scheduler it performs, so everything proved about runs holds of the
  object; where the kernel unlinks a node from a list that does not hold it, the contract
  says what becomes of the lists.
*/
module Scheduling {
  import opened Lists
  import opened Pools
  import opened SchedulerRuns
  import opened LinkedLists
  import opened HashTables
  import opened ThreadLists

  const TABLE_SIZE: nat := 64

  function PoolAt(s: Sched, i: nat): seq<int> {
    if i == RUN then s.run else if i == WAIT then s.wait else if i == SLEEP then s.sleep else s.zombie
  }

  function WithPool(s: Sched, i: nat, l: seq<int>): Sched {
    if i == RUN then s.(run := l) else if i == WAIT then s.(wait := l) else if i == SLEEP then s.(sleep := l) else s.(zombie := l)
  }

  function Moved(s: Sched, from: nat, to: nat, t: int): Sched {
    WithPool(WithPool(s, from, Unlink(PoolAt(s, from), t)), to, PoolAt(s, to) + [t])
  }

  /** The same with a new status. */
  function MovedTo(s: Sched, from: nat, to: nat, t: int, st: Status): Sched
    requires t in s.tcbs
  {
    Moved(s, from, to, t).(tcbs := s.tcbs[t := s.tcbs[t].(status := st)])
  }

  /** Moving a node between two rows moves its thread between two pools. */
  lemma MovedFiled(rows: Rows, m: map<int, Node<int>>, from: nat, to: nat, n: Node<int>)
    requires Filed(rows, m) && from < 4 && to < 4 && from != to && n in rows[from]
    ensures var rows': Rows := rows[from := Unlink(rows[from], n)][to := rows[to] + [n]];
      Filed(rows', m) && Elems(rows'[from]) == Unlink(Elems(rows[from]), n.e) && Elems(rows'[to]) == Elems(rows[to]) + [n.e]
  {
    hide Unlink;
    var k :| 0 <= k < |rows[from]| && rows[from][k] == n;
    ElemsUnlink(rows[from], n);
    UnlinkWithin(rows[from], n);
    var rows': Rows := rows[from := Unlink(rows[from], n)][to := rows[to] + [n]];
    forall i, k | 0 <= i < 4 && 0 <= k < |rows'[i]| ensures rows'[i][k].e in m && m[rows'[i][k].e] == rows'[i][k] {
      if i == from { InRow(rows, m, from, rows'[i][k]); }
    }
  }

  lemma InRow(rows: Rows, m: map<int, Node<int>>, i: nat, n: Node<int>)
    requires Filed(rows, m) && i < 4 && n in rows[i]
    ensures n.e in m && m[n.e] == n
  {
    var k :| 0 <= k < |rows[i]| && rows[i][k] == n;
  }

  /** Every thread of the table has its node in some row. */
  lemma Housed(rows: Rows, m: map<int, Node<int>>, s: Sched, t: int)
    requires Filed(rows, m) && Partition(s) && t in m && s.threads == m.Keys
    requires s.run == Elems(rows[RUN]) && s.wait == Elems(rows[WAIT]) && s.sleep == Elems(rows[SLEEP]) && s.zombie == Elems(rows[ZOMBIE])
    ensures exists i :: 0 <= i < 4 && m[t] in rows[i]
  {
    hide Filed, Partition;
    OnePool(s, t);
    NodeOf(rows, m, RUN, t);
    NodeOf(rows, m, WAIT, t);
    NodeOf(rows, m, SLEEP, t);
    NodeOf(rows, m, ZOMBIE, t);
  }

  /** A new thread's node at the end of a row. */
  lemma AddedFiled(rows: Rows, m: map<int, Node<int>>, i: nat, n: Node<int>)
    requires Filed(rows, m) && i < 4 && n.e !in m
    ensures Filed(rows[i := rows[i] + [n]], m[n.e := n]) && Elems(rows[i] + [n]) == Elems(rows[i]) + [n.e]
  {
  }

  /** A thread's node leaves its row. */
  lemma LeftFiled(rows: Rows, m: map<int, Node<int>>, i: nat, n: Node<int>)
    requires Filed(rows, m) && i < 4 && n in rows[i]
    ensures Filed(rows[i := Unlink(rows[i], n)], m) && Elems(Unlink(rows[i], n)) == Unlink(Elems(rows[i]), n.e)
  {
    hide Unlink;
    InRow(rows, m, i, n);
    ElemsUnlink(rows[i], n);
    UnlinkWithin(rows[i], n);
    var rows': Rows := rows[i := Unlink(rows[i], n)];
    forall j, k | 0 <= j < 4 && 0 <= k < |rows'[j]| ensures rows'[j][k].e in m && m[rows'[j][k].e] == rows'[j][k] {
      if j == i { InRow(rows, m, i, rows'[j][k]); }
    }
  }

  /** A thread's node enters a row. */
  lemma InsertedFiled(rows: Rows, m: map<int, Node<int>>, i: nat, n: Node<int>, k: nat)
    requires Filed(rows, m) && i < 4 && n.e in m && m[n.e] == n && k <= |rows[i]|
    ensures Filed(rows[i := rows[i][..k] + [n] + rows[i][k..]], m)
    ensures Elems(rows[i][..k] + [n] + rows[i][k..]) == Insert(Elems(rows[i]), n.e, k)
  {
  }

  lemma RotatedFiled(rows: Rows, m: map<int, Node<int>>, i: nat)
    requires Filed(rows, m) && i < 4
    ensures Filed(rows[i := Rotated(rows[i])], m) && Elems(Rotated(rows[i])) == Rotate(Elems(rows[i]))
  {
  }

  /** A thread that is in no row may leave the table. */
  lemma DroppedFiled(rows: Rows, m: map<int, Node<int>>, t: int)
    requires Filed(rows, m) && forall i :: 0 <= i < 4 ==> t !in Elems(rows[i])
    ensures Filed(rows, m - {t})
  {
    forall i, k | 0 <= i < 4 && 0 <= k < |rows[i]| ensures rows[i][k].e != t {
      assert Elems(rows[i])[k] == rows[i][k].e;
    }
  }

  lemma NothingFiled()
    ensures Filed([[], [], [], []], map[]) && Elems<int>([]) == []
  {
  }

  class Scheduler {
    const lists: PoolLists
    const table: HashTable<Node<int>>
    var tcbs: map<int, Tcb>
    var cur: int
    var idle: int
    var numTicks: nat
    var nextTid: int
    var targets: map<int, int>

    /** The lists and the table are well formed and fit each other. */
    ghost predicate Heap()
      reads lists, lists.arr, lists.Nodes(), table, table.arr, table.Nodes()
    {
      lists.Valid() && table.Valid() && Filed(lists.Rows(), table.m)
    }

    /** The threads in list `i`, in order. */
    ghost function Pool(i: nat): seq<int>
      reads lists.arr
    {
      if i < |lists.arr| then Elems(lists.Rows()[i]) else []
    }

    ghost function St(): Sched
      reads this, lists.arr, table
    {
      Sched(tcbs, table.m.Keys, Pool(RUN), Pool(WAIT), Pool(SLEEP), Pool(ZOMBIE), cur, idle, numTicks, nextTid, targets)
    }

    ghost predicate Valid()
      reads this, lists, lists.arr, lists.Nodes(), table, table.arr, table.Nodes()
    {
      Heap() && Ok(St())
    }

    constructor (lists: PoolLists, table: HashTable<Node<int>>)
      requires lists.Valid() && lists.Rows() == [[], [], [], []] && table.Valid() && table.m == map[]
      ensures Valid() && St() == Init() && this.lists == lists && this.table == table
    {
      this.lists, this.table := lists, table;
      tcbs, cur, idle, numTicks, nextTid, targets := map[0 := Tcb(Runnable, 0)], NO_THREAD, 0, 0, 1, map[];
      new;
      hide PoolLists.Valid, HashTable.Valid, Ok, Filed, TableOk;
      InitOk();
      NothingFiled();
      lists.Kept();
      table.Kept();
    }

    /** The table's chains and the pools are lists of different types of nodes. */
    lemma Separate()
      ensures forall a, b :: a in lists.arr && b in table.arr ==> (a as object) != (b as object)
      ensures forall x, y :: x in lists.Nodes() && y in table.Nodes() ==> (x as object) != (y as object)
      ensures forall x, b :: x in lists.Nodes() && b in table.arr ==> (x as object) != (b as object)
      ensures forall a, y :: a in lists.arr && y in table.Nodes() ==> (a as object) != (y as object)
    {
    }

    lemma Four()
      requires Heap()
      ensures |lists.arr| == 4
    {
    }

    /** Changes a thread's record, which the lists and the table do not depend on. */
    method SetRecord(t: int, r: Tcb, ghost i: nat := 0, ghost q: seq<Node<int>> := [])
      modifies this`tcbs
      ensures tcbs == old(tcbs)[t := r] && (Heap() <==> old(Heap())) && St() == old(St()).(tcbs := tcbs)
      ensures lists.Nodes() == old(lists.Nodes()) && table.Nodes() == old(table.Nodes())
      ensures i < |lists.arr| && old(lists.Miscounted(i, q)) ==> lists.Miscounted(i, q)
    {
      hide PoolLists.Valid, HashTable.Valid, Filed, Elems, PoolLists.Rows;
      tcbs := tcbs[t := r];
      lists.Kept();
      table.Kept();
    }

    /** Looks a thread's node up in the table. */
    method Find(tid: int) returns (n: Node?<int>)
      requires Heap()
      ensures Heap() && (n == null <==> tid !in table.m) && (n != null ==> n == table.m[tid] && n.e == tid)
    {
      var code, entry := table.Get(tid);
      if code < 0 { return null; }
      return entry.e.val;
    }

    /** Moves a thread's node to the end of another list, unlinking it from list `from`. */
    method MoveThread(from: nat, to: nat, n: Node<int>) returns (r: int)
      requires Heap() && Partition(St()) && n.e in table.m && table.m[n.e] == n && from < 4 && to < 4 && from != to
      modifies lists.arr, lists.Nodes()
      ensures r == if old(Pool(from)) == [] then -1 else 0
      ensures Heap() <==> r < 0 || n.e in old(Pool(from))
      ensures Heap() ==> lists.Nodes() == old(lists.Nodes())
      ensures Heap() ==> St() == if r < 0 then old(St()) else Moved(old(St()), from, to, n.e)
      ensures !Heap() ==> lists.Miscounted(from, old(lists.Rows()[from]))
    {
      hide PoolLists.Valid, HashTable.Valid, PoolLists.Nodes, PoolLists.Rows, Filed, Partition, Unlink, PoolLists.Miscounted, Elems;
      Four();
      Separate();
      ghost var rows := lists.Rows();
      Housed(rows, table.m, St(), n.e);
      NodeOf(rows, table.m, from, n.e);
      if n in rows[from] { MovedFiled(rows, table.m, from, to, n); }
      r := lists.Move(from, to, n);
      table.Kept();
    }

    // ---- Pool transitions --------------------------------------------------

    /** Adds a new runnable thread under the next thread id, which is not in the table. */
    method AddThread() returns (tid: int)
      requires Valid()
      modifies this, lists.arr, lists.Nodes(), table, table.arr, table.Nodes()
      ensures Valid() && Takes(old(St()), SpawnOp, St()) && tid == old(nextTid) && tid !in old(St()).threads
      ensures fresh(lists.Nodes() - old(lists.Nodes())) && fresh(table.Nodes() - old(table.Nodes()))
    {
      hide Ok, Heap, Step, PoolLists.Nodes, PoolLists.Rows, HashTable.Nodes, Elems;
      ghost var s := St();
      SpawnStep(s);
      tid := nextTid;
      AddNode(tid);
      SetRecord(tid, Tcb(Runnable, 0));
      SetNext(tid + 1);
      assert St() == Spawn(s);
    }

    method AddNode(tid: int)
      requires Heap() && tid !in table.m
      modifies lists.arr, lists.Nodes(), table, table.arr, table.Nodes()
      ensures Heap() && St() == old(St()).(threads := old(St()).threads + {tid}, run := old(St()).run + [tid])
      ensures fresh(lists.Nodes() - old(lists.Nodes())) && fresh(table.Nodes() - old(table.Nodes()))
    {
      hide Heap, Elems, PoolLists.Rows;
      var n := NewNode(tid);
      FileNew(n);
    }

    method NewNode(tid: int) returns (n: Node<int>)
      requires Heap()
      ensures fresh(n) && n !in lists.Nodes() && n.e == tid && n.next == null && n.prev == null
      ensures Heap() && lists.Nodes() == old(lists.Nodes()) && table.Nodes() == old(table.Nodes()) && St() == old(St())
    {
      hide PoolLists.Valid, HashTable.Valid, Filed, Elems, PoolLists.Rows;
      n := new Node(tid);
      lists.Kept();
      table.Kept();
    }

    /** Files a new node in the table and in the runnable pool. */
    method FileNew(n: Node<int>)
      requires Heap() && n.e !in table.m && n !in lists.Nodes() && n.next == null && n.prev == null
      modifies lists.arr, lists.Nodes(), n, table, table.arr, table.Nodes()
      ensures Heap() && table.m.Keys == old(table.m.Keys) + {n.e} && Pool(RUN) == old(Pool(RUN)) + [n.e]
      ensures Pool(WAIT) == old(Pool(WAIT)) && Pool(SLEEP) == old(Pool(SLEEP)) && Pool(ZOMBIE) == old(Pool(ZOMBIE))
      ensures lists.Nodes() == old(lists.Nodes()) + {n} && fresh(table.Nodes() - old(table.Nodes()))
    {
      hide PoolLists.Valid, HashTable.Valid, Filed, Elems, PoolLists.Rows, PoolLists.Nodes, HashTable.Nodes;
      Four();
      AddedFiled(lists.Rows(), table.m, RUN, n);
      FileEntry(n);
      ListLast(RUN, n);
    }

    /** Links a node at the end of a list, leaving the table alone. */
    method ListLast(i: nat, n: Node<int>)
      requires lists.Valid() && table.Valid() && i < 4 && n !in lists.Nodes() && n.next == null && n.prev == null
      modifies lists.arr, lists.Nodes(), n
      ensures lists.Valid() && table.Valid() && |lists.arr| == 4 && table.Nodes() == old(table.Nodes())
      ensures lists.Rows() == old(lists.Rows())[i := old(lists.Rows())[i] + [n]] && lists.Nodes() == old(lists.Nodes()) + {n}
    {
      hide HashTable.Valid, PoolLists.Rows, PoolLists.Nodes, LinkedList.Valid;
      Separate();
      lists.PutLast(i, n);
      table.Kept();
    }

    /** Files a node in the table only. */
    method FileEntry(n: Node<int>)
      requires lists.Valid() && table.Valid() && n.e !in table.m && n.next == null && n.prev == null
      modifies table, table.arr, table.Nodes()
      ensures n.next == null && n.prev == null && lists.Valid() && table.Valid() && table.m == old(table.m)[n.e := n] && fresh(table.Nodes() - old(table.Nodes()))
      ensures lists.Rows() == old(lists.Rows()) && lists.Nodes() == old(lists.Nodes())
    {
      hide PoolLists.Valid, HashTable.Valid, PoolLists.Rows;
      Separate();
      var code := table.Put(n.e, n);
      if code < 0 { assert false; }
      lists.Kept();
    }

    /**
      Moves the current thread to the waiting pool.  The lists survive exactly when the current
      thread is in the runnable pool, as it is unless it was switched to too late.
    */
    method DescheduleCurrent() returns (code: int)
      requires Heap() && Partition(St()) && cur in tcbs && table.m.Keys <= tcbs.Keys
      modifies this, lists.arr, lists.Nodes()
      ensures code == if old(cur in table.m && !tcbs[cur].status.Waiting? && St().run != []) then 0 else -3
      ensures Heap() <==> code < 0 || cur in old(St()).run
      ensures Heap() ==> lists.Nodes() == old(lists.Nodes())
      ensures Heap() ==> St() == if code < 0 then old(St()) else Deschedule(old(St()))
      ensures !Heap() ==> lists.Miscounted(RUN, old(lists.Rows()[RUN]))
      ensures old(Ok(St()) && Enabled(St(), DescheduleOp)) ==> Valid() && Takes(old(St()), DescheduleOp, St())
    {
      hide Heap, Ok, Partition, Enabled, Step, Unlink, Elems, PoolLists.Rows, PoolLists.Nodes, PoolLists.Miscounted, Moved, Deschedule;
      ghost var s := St();
      if cur in table.m { MovedDeschedule(s); }
      if Ok(s) && Enabled(s, DescheduleOp) { DescheduleStep(s); }
      var n := Find(cur);
      if n == null { return -3; }
      if tcbs[cur].status.Waiting? { return -3; }
      var r := MoveThread(RUN, WAIT, n);
      if r < 0 { return -3; }
      SetRecord(cur, tcbs[cur].(status := Waiting), RUN, old(lists.Rows()[RUN]));
      return 0;
    }

    /**
      Makes a waiting or sleeping thread runnable; fails on every other thread.  The thread's
      status alone decides which list its node is unlinked from, so the lists survive exactly
      when that list holds it.
    */
    method MakeRunnable(tid: int) returns (code: int)
      requires Valid()
      modifies this, lists.arr, lists.Nodes()
      ensures Valid() <==> Safe(old(St()), tid)
      ensures code == if Moves(old(St()), tid) then 0 else -2
      ensures Valid() ==> St() == (if code < 0 then old(St()) else Pools.MakeRunnable(old(St()), tid)) && lists.Nodes() == old(lists.Nodes())
      ensures !Valid() ==> lists.Miscounted(SLEEP, old(lists.Rows()[SLEEP]))
    {
      hide Heap, Ok, Partition, Unlink, Elems, PoolLists.Nodes, PoolLists.Rows, PoolLists.Miscounted, Moved, Pools.MakeRunnable;
      Four();
      MovedRunnable(St(), tid);
      var n := Find(tid);
      if n == null { return -2; }
      if tcbs[tid].status.Runnable? { return -2; }
      var r;
      if tcbs[tid].status.Waiting? {
        r := MoveThread(WAIT, RUN, n);
      } else {
        r := MoveThread(SLEEP, RUN, n);
      }
      if r < 0 { return -2; }
      SetRecord(tid, tcbs[tid].(status := Runnable), SLEEP, old(lists.Rows()[SLEEP]));
      return 0;
    }

    /** Moves the running thread to the zombie pool; the kernel then runs on nobody's behalf. */
    method MakeCurrentZombie() returns (code: int)
      requires Valid() && Enabled(St(), VanishOp)
      modifies this, lists.arr, lists.Nodes()
      ensures Valid() && Takes(old(St()), VanishOp, St()) && lists.Nodes() == old(lists.Nodes())
      ensures code == if old(cur) in old(St()).threads then 0 else -2
    {
      hide Heap, Ok, Partition, Step, Unlink, Elems, PoolLists.Nodes, PoolLists.Rows, PoolLists.Miscounted, Moved, Enabled;
      VanishStep(St());
      var n := Find(cur);
      if n == null { return -2; }
      if !tcbs[cur].status.Running? { assert false; }
      var r := MoveThread(RUN, ZOMBIE, n);
      if r < 0 { assert false; }
      SetRecord(cur, tcbs[cur].(status := Zombie));
      SetCurrent(NO_THREAD);
      return 0;
    }

    method SetNext(t: int)
      modifies this`nextTid
      ensures (Heap() <==> old(Heap())) && St() == old(St()).(nextTid := t) && lists.Nodes() == old(lists.Nodes()) && table.Nodes() == old(table.Nodes())
    {
      hide PoolLists.Valid, HashTable.Valid, Filed, Elems, PoolLists.Rows;
      nextTid := t;
      lists.Kept();
      table.Kept();
    }

    method SetCurrent(t: int)
      modifies this`cur
      ensures cur == t && (Heap() <==> old(Heap())) && St() == old(St()).(cur := t) && lists.Nodes() == old(lists.Nodes())
    {
      hide PoolLists.Valid, HashTable.Valid, Filed, Elems, PoolLists.Rows;
      cur := t;
      lists.Kept();
      table.Kept();
    }

    /** Records wake time `w` for the running thread and moves it to its place among the sleepers. */
    method EnterSleep(w: nat) returns (code: int)
      requires Heap() && Partition(St()) && cur in tcbs && (cur in table.m ==> cur in St().run)
      modifies this, lists.arr, lists.Nodes()
      ensures Heap() && St() == SleepUntil(old(St()), w) && lists.Nodes() == old(lists.Nodes())
      ensures code == if old(cur) in old(St()).threads then 0 else -2
    {
      hide Heap, Ok, Partition, Unlink, Elems, PoolLists.Nodes, PoolLists.Rows, SortedPlace;
      SetRecord(cur, Tcb(Sleeping, w));
      var n := Find(cur);
      if n == null { return -2; }
      KeyOfSleepers(old(St()), w);
      SleepNode(n, WakeKey(tcbs));
      return 0;
    }

    /** Moves a node from the runnable pool into the sorted sleeping pool. */
    method SleepNode(n: Node<int>, key: int -> int)
      requires Heap() && n.e in table.m && table.m[n.e] == n && n.e in Pool(RUN)
      modifies lists.arr, lists.Nodes()
      ensures Heap() && lists.Nodes() == old(lists.Nodes()) && Pool(RUN) == Unlink(old(Pool(RUN)), n.e)
      ensures Pool(SLEEP) == Insert(old(Pool(SLEEP)), n.e, SortedPlace(old(Pool(SLEEP)), key, key(n.e)))
      ensures Pool(WAIT) == old(Pool(WAIT)) && Pool(ZOMBIE) == old(Pool(ZOMBIE))
    {
      hide PoolLists.Valid, HashTable.Valid, Filed, Unlink, Elems, PoolLists.Nodes, PoolLists.Rows, SortedPlace, PoolLists.Miscounted;
      Four();
      Separate();
      ghost var rows := lists.Rows();
      NodeOf(rows, table.m, RUN, n.e);
      LeftFiled(rows, table.m, RUN, n);
      lists.Holds(RUN, SLEEP, n);
      var r := lists.Unhook(RUN, n);
      ghost var rows1 := lists.Rows();
      ghost var k := lists.PutSorted(SLEEP, n, key);
      InsertedFiled(rows1, table.m, SLEEP, n, k);
      table.Kept();
    }

    /** Puts the running thread to sleep; `halted` is the kernel's panic on clock overflow. */
    method SleepCurrent(ticks: int) returns (code: int, halted: bool)
      requires Valid() && Executing(St())
      modifies this, lists.arr, lists.Nodes()
      ensures halted <==> ticks > 0 && !old(StatusOf(St(), cur).Sleeping?) && old(numTicks) + ticks > MAX_INT
      ensures !halted ==> Valid() && St() == SleepFor(old(St()), ticks) && lists.Nodes() == old(lists.Nodes())
      ensures ticks < 0 ==> code == -1
      ensures !halted && ticks > 0 && old(cur) in old(St()).threads ==> code == 0
      ensures !halted && ticks > 0 && old(cur) in old(St()).threads ==> SleepsTill(St(), old(cur), old(numTicks) + ticks)
    {
      hide Heap, Ok, Partition, SleepUntil, Elems, PoolLists.Nodes, PoolLists.Rows, Executing;
      ghost var s := St();
      ExecutingRecord(s);
      SleepForOk(s, ticks);
      if ticks > 0 && cur in table.m { SleepForFacts(s, ticks); }
      if ticks < 0 { return -1, false; }
      if ticks == 0 { return 0, false; }
      if tcbs[cur].status.Sleeping? { return -4, false; }
      if numTicks + ticks > MAX_INT { return 0, true; }
      code := EnterSleep(numTicks + ticks);
      return code, false;
    }

    /** Wakes the sleepers at the head of the pool whose time is now; their status stays SLEEPING. */
    method WakeSleepers()
      requires Heap() && Due(St())
      modifies this, lists.arr, lists.Nodes()
      ensures Valid() && St() == WakeDue(old(St())) && lists.Nodes() == old(lists.Nodes())
    {
      hide Heap, Due, Ok, WakeIn, WakeDue, Elems, PoolLists.Nodes, PoolLists.Rows;
      ghost var k := WakeDueOk(St());
      var n := FirstOf(SLEEP);
      while n != null
        invariant Heap() && Due(St()) && WakeDue(St()) == WakeDue(old(St())) && lists.Nodes() == old(lists.Nodes())
        invariant (n == null <==> St().sleep == []) && (n != null ==> n.e == St().sleep[0])
        decreases |St().sleep|
      {
        if WakeIn(tcbs, n.e) != numTicks { break; }
        WakeFirst(n.e);
        n := FirstOf(SLEEP);
      }
      NobodyLeft(St());
    }

    /** `make_runnable` on the first sleeper, whose time has come. */
    method WakeFirst(t: int)
      requires Heap() && Due(St()) && St().sleep != [] && St().sleep[0] == t && WakeIn(tcbs, t) == numTicks
      modifies lists.arr, lists.Nodes()
      ensures Heap() && Due(St()) && WakeDue(St()) == WakeDue(old(St())) && lists.Nodes() == old(lists.Nodes())
      ensures |St().sleep| < |old(St()).sleep|
    {
      hide Heap, Due, WakeIn, WakeDue, Partition, Unlink, Elems, PoolLists.Nodes, PoolLists.Rows, PoolLists.Miscounted, Moved;
      WakeMoves(St());
      var n := Find(t);
      if tcbs[t].status.Runnable? || tcbs[t].status.Waiting? { assert false; }
      var r := MoveThread(SLEEP, RUN, n);
    }

    /** The first node of a list. */
    method FirstOf(i: nat) returns (n: Node?<int>)
      requires Heap() && i < 4
      ensures Heap() && (n == null <==> Pool(i) == []) && (n != null ==> n.e == Pool(i)[0])
    {
      n := lists.First(i);
    }

    // ---- Switching ---------------------------------------------------------

    /** Marks the interrupted thread runnable, unless it has just given up the processor. */
    method DeferCurrent()
      modifies this`tcbs
      ensures (Heap() <==> old(Heap())) && St() == Defer(old(St())) && lists.Nodes() == old(lists.Nodes())
    {
      hide Heap, PoolLists.Nodes, PoolLists.Rows, Elems;
      if cur in tcbs {
        if tcbs[cur].status.Running? { SetRecord(cur, tcbs[cur].(status := Runnable)); }
      }
    }

    /** Rotates the runnable pool. */
    method RotateRunnable() returns (r: int)
      requires Heap()
      modifies lists.arr, lists.Nodes()
      ensures Heap() && St() == old(St()).(run := Rotate(old(St()).run)) && lists.Nodes() == old(lists.Nodes())
      ensures r == if old(St()).run == [] then -2 else 0
    {
      hide PoolLists.Valid, HashTable.Valid, Filed, Elems, PoolLists.Nodes, PoolLists.Rows, Rotate;
      Four();
      Separate();
      RotatedFiled(lists.Rows(), table.m, RUN);
      r := lists.RotateList(RUN);
      table.Kept();
    }

    method SetRunning(t: int)
      requires t in tcbs
      modifies this`tcbs, this`cur
      ensures (Heap() <==> old(Heap())) && St() == Pools.SetRunning(old(St()), t) && lists.Nodes() == old(lists.Nodes())
    {
      hide Heap, PoolLists.Nodes, PoolLists.Rows, Elems;
      SetRecord(t, tcbs[t].(status := Running));
      SetCurrent(t);
    }

    /** Rotates the runnable pool and runs its head; the idle thread runs when it is empty. */
    method SwitchAway()
      requires Valid()
      modifies this, lists.arr, lists.Nodes()
      ensures Valid() && St() == Switch(old(St())) && Executing(St()) && lists.Nodes() == old(lists.Nodes())
      ensures cur == if old(St()).run == [] then old(idle) else Rotate(old(St()).run)[0]
    {
      hide Heap, Ok, PoolLists.Nodes, PoolLists.Rows, Elems, Switch, Rotate, Defer, Executing;
      ghost var s := St();
      SwitchOk(s);
      SwitchParts(s);
      DeferCurrent();
      var r := RotateRunnable();
      var n := FirstOf(RUN);
      if r < 0 {
        SetRunning(idle);
      } else {
        SetRunning(n.e);
      }
    }

    /** The clock interrupt: count, wake, switch. */
    method TimerTick()
      requires Valid() && Enabled(St(), TickOp)
      modifies this, lists.arr, lists.Nodes()
      ensures Valid() && Takes(old(St()), TickOp, St()) && Executing(St()) && lists.Nodes() == old(lists.Nodes())
    {
      hide Heap, Ok, Due, WakeDue, Switch, Step, Executing, PoolLists.Nodes, PoolLists.Rows, Elems;
      ghost var s := St();
      TickDue(s);
      TickStep(s);
      SetClock(numTicks + 1);
      WakeSleepers();
      SwitchAway();
    }

    method SetClock(n: nat)
      modifies this`numTicks
      ensures (Heap() <==> old(Heap())) && St() == old(St()).(ticks := n) && lists.Nodes() == old(lists.Nodes())
    {
      hide PoolLists.Valid, HashTable.Valid, Filed, Elems, PoolLists.Rows;
      numTicks := n;
      lists.Kept();
      table.Kept();
    }

    method SetTargets(m: map<int, int>)
      modifies this`targets
      ensures (Heap() <==> old(Heap())) && St() == old(St()).(targets := m) && lists.Nodes() == old(lists.Nodes())
    {
      hide PoolLists.Valid, HashTable.Valid, Filed, Elems, PoolLists.Rows;
      targets := m;
      lists.Kept();
      table.Kept();
    }

    /** The first half of `yield` to a thread: is it runnable?  Interrupts are on afterwards. */
    method CheckRunnable(tid: int) returns (code: int)
      requires Valid()
      modifies this`targets
      ensures Valid() && St() == CheckTarget(old(St()), tid) && lists.Nodes() == old(lists.Nodes())
      ensures code == if tid !in old(St()).threads then -2 else if StatusOf(old(St()), tid).Runnable? then 0 else -3
      ensures targets == if code == 0 then old(targets)[old(cur) := tid] else old(targets)
    {
      hide Heap, Ok, PoolLists.Nodes, PoolLists.Rows, Elems;
      Checked(St(), tid);
      var n := Find(tid);
      if n == null { return -2; }
      if !tcbs[tid].status.Runnable? { return -3; }
      SetTargets(targets[cur := tid]);
      return 0;
    }

    /**
      The second half: the switch, whatever has become of the target.  The scheduler is in order
      afterwards exactly when the target is gone or still in the runnable pool.
    */
    method SwitchToTarget()
      requires Valid() && cur in targets
      modifies this`tcbs, this`cur, this`targets
      ensures Heap() && St() == SwitchPending(old(St())) && Partition(St()) && lists.Nodes() == old(lists.Nodes())
      ensures Valid() <==> TargetReady(old(St()))
      ensures targets == old(targets) - {old(cur)}
      ensures var t := old(targets[cur]); cur == if t in old(St()).threads then t else old(idle)
    {
      hide Heap, Ok, Partition, PoolLists.Nodes, PoolLists.Rows, Elems, Defer;
      ghost var s := St();
      PendingExact(s);
      var t := targets[cur];
      SetTargets(targets - {cur});
      DeferCurrent();
      var n := Find(t);
      if n == null { t := idle; }
      SetRunning(t);
    }

    // ---- Reaping -----------------------------------------------------------

    /** One round of the reaper: the first zombie leaves the table and its pool. */
    method ReapOne() returns (found: bool)
      requires Valid()
      modifies this, lists.arr, lists.Nodes(), table, table.arr, table.Nodes()
      ensures found == (old(St()).zombie != []) && Reaped(old(St()), St())
      ensures Valid() && Takes(old(St()), ReapOp, St())
      ensures lists.Nodes() <= old(lists.Nodes()) && table.Nodes() <= old(table.Nodes())
    {
      hide Heap, Ok, Step, Unlink, PoolLists.Nodes, PoolLists.Rows, HashTable.Nodes, Elems;
      ghost var s := St();
      ReapStep(s);
      var n := FirstOf(ZOMBIE);
      if n == null { return false; }
      var tid := n.e;
      DropThread(tid);
      DropRecord(tid);
      assert St() == Step(s, ReapOp);
      return true;
    }

    method DropRecord(t: int)
      modifies this`tcbs
      ensures (Heap() <==> old(Heap())) && St() == old(St()).(tcbs := old(tcbs) - {t}) && lists.Nodes() == old(lists.Nodes()) && table.Nodes() == old(table.Nodes())
    {
      hide PoolLists.Valid, HashTable.Valid, Filed, Elems, PoolLists.Rows;
      tcbs := tcbs - {t};
      lists.Kept();
      table.Kept();
    }

    /** Takes a zombie's node out of the table and out of its pool. */
    method DropThread(t: int)
      requires Heap() && Partition(St()) && t in Pool(ZOMBIE)
      modifies lists.arr, lists.Nodes(), table, table.arr, table.Nodes()
      ensures Heap() && St() == old(St()).(threads := old(St()).threads - {t}, zombie := Unlink(old(St()).zombie, t))
      ensures lists.Nodes() <= old(lists.Nodes()) && table.Nodes() <= old(table.Nodes())
    {
      hide PoolLists.Valid, HashTable.Valid, Filed, Unlink, Elems, PoolLists.Rows, PoolLists.Miscounted, Partition;
      Four();
      ghost var rows, m := lists.Rows(), table.m;
      NodeOf(rows, m, ZOMBIE, t);
      ghost var n0 := m[t];
      LeftFiled(rows, m, ZOMBIE, n0);
      ZombieGone(rows, m, St(), t);
      Separate();
      var code, e := table.Remove(t);
      if code < 0 { assert false; }
      lists.Kept();
      UnhookZombie(e.e.val);
    }

    /** Unlinks a node from the zombie pool, leaving the table alone. */
    method UnhookZombie(n: Node<int>)
      requires lists.Valid() && table.Valid() && n in lists.Rows()[ZOMBIE]
      modifies lists.arr, lists.Nodes()
      ensures lists.Valid() && table.Valid() && table.Nodes() == old(table.Nodes()) && lists.Nodes() <= old(lists.Nodes())
      ensures lists.Rows() == old(lists.Rows())[ZOMBIE := Unlink(old(lists.Rows()[ZOMBIE]), n)]
    {
      hide HashTable.Valid, Unlink, PoolLists.Nodes, PoolLists.Rows, PoolLists.Miscounted, LinkedList.Valid;
      Separate();
      var r := lists.Unhook(ZOMBIE, n);
      table.Kept();
    }

    // ---- Histories ---------------------------------------------------------

    method IsExecuting() returns (ok: bool)
      requires Valid()
      ensures Valid() && (ok <==> Executing(St()))
    {
      hide Heap, Ok, Executing, PoolLists.Rows, Elems;
      ExecutingByStatus(St());
      if cur == idle { return true; }
      var n := Find(cur);
      if n == null { return false; }
      return tcbs[cur].status.Running?;
    }

    method InPool(i: nat, t: int) returns (found: bool)
      requires Valid() && i < 4
      ensures Valid() && (found <==> t in Pool(i))
    {
      hide PoolLists.Valid, HashTable.Valid, Filed, Elems, Ok;
      Four();
      found := lists.Holding(i, t);
      lists.Kept();
      table.Kept();
    }

    method IsSafe(t: int) returns (ok: bool)
      requires Valid()
      ensures Valid() && (ok <==> Safe(St(), t))
    {
      hide Heap, Ok, PoolLists.Rows, Elems;
      MovedRunnable(St(), t);
      var n := Find(t);
      if n == null { return true; }
      if tcbs[t].status.Runnable? || tcbs[t].status.Waiting? { return true; }
      var first := FirstOf(SLEEP);
      if first == null { return true; }
      ok := InPool(SLEEP, t);
    }

    method IsTargetReady() returns (ok: bool)
      requires Valid()
      ensures Valid() && (ok <==> TargetReady(St()))
    {
      hide Heap, Ok, PoolLists.Rows, Elems;
      if cur !in targets { return false; }
      var n := Find(targets[cur]);
      if n == null { return true; }
      ok := InPool(RUN, targets[cur]);
    }

    /** Whether the kernel may take the step now. */
    method Permitted(op: Op) returns (ok: bool)
      requires Valid()
      ensures Valid() && (ok <==> Enabled(St(), op))
    {
      hide Heap, Ok, PoolLists.Rows, Elems, Executing, Safe, TargetReady;
      var calling := IsExecuting();
      match op {
        case SpawnOp => return true;
        case ReapOp => return true;
        case TickOp => return numTicks < MAX_INT;
        case YieldOp => return cur !in targets;
        case MakeRunnableOp(t) =>
          var safe := IsSafe(t);
          return safe;
        case SwitchToOp =>
          var ready := IsTargetReady();
          return calling && ready;
        case SleepOp(n) => return calling && cur !in targets && numTicks + n <= MAX_INT;
        case _ => return calling && cur !in targets;
      }
    }

    method ServeOne(op: Op)
      requires Valid() && Enabled(St(), op)
      modifies this, lists.arr, lists.Nodes(), table, table.arr, table.Nodes()
      ensures Valid() && Takes(old(St()), op, St())
      ensures fresh(lists.Nodes() - old(lists.Nodes())) && fresh(table.Nodes() - old(table.Nodes()))
    {
      hide Heap, Ok, Step, Enabled, Partition, PoolLists.Nodes, PoolLists.Rows, HashTable.Nodes, PoolLists.Miscounted, Elems;
      ghost var s := St();
      StepMatches(s, op);
      match op {
        case SpawnOp => var tid := AddThread();
        case DescheduleOp => var code := DescheduleCurrent();
        case MakeRunnableOp(t) => var code := MakeRunnable(t);
        case SleepOp(n) => var code, halted := SleepCurrent(n);
        case VanishOp => var code := MakeCurrentZombie();
        case YieldOp => SwitchAway();
        case CheckOp(t) => var code := CheckRunnable(t);
        case SwitchToOp => SwitchToTarget();
        case TickOp => TimerTick();
        case ReapOp => var found := ReapOne();
      }
    }

    /** Takes the step if the kernel may. */
    method TryOne(op: Op)
      requires Valid()
      modifies this, lists.arr, lists.Nodes(), table, table.arr, table.Nodes()
      ensures Valid() && St() == if Enabled(old(St()), op) then Step(old(St()), op) else old(St())
      ensures fresh(lists.Nodes() - old(lists.Nodes())) && fresh(table.Nodes() - old(table.Nodes()))
    {
      hide Heap, Ok, Step, Enabled, PoolLists.Rows, Elems;
      var ok := Permitted(op);
      if ok { ServeOne(op); }
    }

    /** Any history of calls and interrupts does what the pure scheduler does, so the theorems about runs hold of the object. */
    method Serve(ops: seq<Op>)
      requires Valid() && St() == Init()
      modifies this, lists.arr, lists.Nodes(), table, table.arr, table.Nodes()
      ensures Valid() && St() == RunAll(Init(), ops)
    {
      hide Heap, Ok, Step, Enabled, Init, PoolLists.Rows, Elems;
      assert ops[0..] == ops;
      for i := 0 to |ops|
        invariant Valid() && Ok(Init()) && RunAll(St(), ops[i..]) == RunAll(Init(), ops)
        invariant fresh(lists.Nodes() - old(lists.Nodes())) && fresh(table.Nodes() - old(table.Nodes()))
      {
        assert ops[i..][0] == ops[i] && ops[i..][1..] == ops[i + 1..];
        TryOne(ops[i]);
      }
    }
  }

  /** The scheduler after `tcb_pool_init`. */
  method NewScheduler() returns (s: Scheduler)
    ensures fresh(s) && s.Valid() && s.St() == Init()
    ensures fresh(s.lists.arr) && fresh(s.lists.Nodes()) && fresh(s.table) && fresh(s.table.arr) && fresh(s.table.Nodes())
  {
    hide PoolLists.Valid, HashTable.Valid, TableOk, Scheduler.Valid;
    var lists := new PoolLists();
    label listed:
    var table := new HashTable<Node<int>>(TABLE_SIZE, t => t);
    lists.Kept@listed();
    s := new Scheduler(lists, table);
  }

  /** The thread is in the sleeping pool with wake time `w`. */
  predicate SleepsTill(s: Sched, t: int, w: int) { t in s.sleep && Wake(s, t) == w && StatusOf(s, t).Sleeping? }

  lemma MovedDeschedule(s: Sched)
    requires s.cur in s.threads && s.cur in s.tcbs
    ensures Deschedule(s) == MovedTo(s, RUN, WAIT, s.cur, Waiting)
  {
  }

  lemma MovedRunnable(s: Sched, t: int)
    requires Ok(s)
    ensures Partition(s) && s.threads <= s.tcbs.Keys
    ensures t in s.threads && s.tcbs[t].status.Waiting? ==> t in s.wait && s.wait != []
    ensures t in s.tcbs && Safe(s, t) ==> Ok(Pools.MakeRunnable(s, t))
    ensures t in s.tcbs && Moves(s, t) && Safe(s, t) ==> Pools.MakeRunnable(s, t) == MovedTo(s, if s.tcbs[t].status.Waiting? then WAIT else SLEEP, RUN, t, Runnable)
  {
    hide Unlink;
    if t in s.threads { PoolOfStatus(s, t); }
    if t in s.tcbs && Safe(s, t) { MakeRunnableOk(s, t); }
  }

  lemma SpawnStep(s: Sched)
    requires Ok(s)
    ensures Step(s, SpawnOp) == Spawn(s) && Ok(Spawn(s)) && s.nextTid !in s.threads
  {
    SpawnOk(s);
  }

  /** Waking the first sleeper is moving it. */
  lemma WakeMoves(s: Sched)
    requires Due(s) && s.sleep != [] && Wake(s, s.sleep[0]) == s.ticks
    ensures var h := s.sleep[0];
      && Partition(s) && h in s.threads && h in s.tcbs && s.tcbs[h].status.Sleeping?
      && Due(Moved(s, SLEEP, RUN, h)) && WakeDue(Moved(s, SLEEP, RUN, h)) == WakeDue(s) && |Moved(s, SLEEP, RUN, h).sleep| < |s.sleep|
  {
    hide WakeIn, Labels;
    HeadAsleep(s);
    WakeHeadOk(s);
    OnePool(s, s.sleep[0]);
    assert Moved(s, SLEEP, RUN, s.sleep[0]) == WakeHead(s);
  }

  lemma NobodyLeft(s: Sched)
    requires Due(s) && (s.sleep != [] ==> Wake(s, s.sleep[0]) != s.ticks)
    ensures WakeDue(s) == s && Ok(s)
  {
    NobodyDue(s);
  }

  /** A switch is: defer, rotate, run the head. */
  lemma SwitchParts(s: Sched)
    requires Ok(s)
    ensures var d := Defer(s).(run := Rotate(s.run));
      && s.idle in d.tcbs && Defer(s).run == s.run && d.idle == s.idle && (d.run == [] <==> s.run == [])
      && (s.run != [] ==> d.run[0] in d.tcbs)
      && Switch(s) == SetRunning(d, if s.run == [] then s.idle else d.run[0])
  {
    hide Labels, Sorted, AllAfter, Partition;
    if s.run != [] {
      var h := Rotate(s.run)[0];
      assert h == s.run[if |s.run| > 1 then 1 else 0] && h in s.run;
      RunHasRecord(s, h);
    }
  }

  lemma TickStep(s: Sched)
    requires Ok(s) && Enabled(s, TickOp)
    ensures var d := WakeDue(s.(ticks := s.ticks + 1)); Ok(d) && Step(s, TickOp) == Switch(d)
  {
    hide Ok, WakeDue, Switch;
    TickWakes(s);
  }

  lemma Checked(s: Sched, t: int)
    requires Ok(s)
    ensures s.threads <= s.tcbs.Keys && Ok(CheckTarget(s, t))
  {
    YieldsFree(s, s.targets[s.cur := t]);
  }

  lemma PendingExact(s: Sched)
    requires Ok(s) && s.cur in s.targets
    ensures Partition(s) && s.threads + {s.idle} <= s.tcbs.Keys && Partition(SwitchPending(s))
    ensures Ok(SwitchPending(s)) <==> TargetReady(s)
    ensures var d := Defer(s.(targets := s.targets - {s.cur}));
      && d.threads == s.threads && d.idle == s.idle && s.tcbs.Keys <= d.tcbs.Keys
      && SwitchPending(s) == SetRunning(d, if s.targets[s.cur] in s.threads then s.targets[s.cur] else s.idle)
  {
    hide Labels, Sorted, AllAfter, Partition;
    var t, s' := s.targets[s.cur], s.(targets := s.targets - {s.cur});
    YieldsFree(s, s'.targets);
    PartitionSame(s, SwitchPending(s));
    if t in s.threads { SwitchToExact(s', t); } else { SwitchPendingOk(s); }
  }

  /** The first zombie, if any, is gone from the table. */
  predicate Reaped(s: Sched, s': Sched) {
    s.zombie != [] ==> s'.threads == s.threads - {s.zombie[0]} && |s'.threads| == |s.threads| - 1
  }

  lemma ReapStep(s: Sched)
    requires Ok(s) && Enabled(s, ReapOp)
    ensures Partition(s) && Ok(Step(s, ReapOp)) && (s.zombie == [] ==> Step(s, ReapOp) == s)
    ensures s.zombie != [] ==> var z := s.zombie[0];
      && z in s.zombie && z in s.threads && |s.threads - {z}| == |s.threads| - 1
      && Step(s, ReapOp) == s.(threads := s.threads - {z}, zombie := Unlink(s.zombie, z), tcbs := s.tcbs - {z})
  {
    hide Sorted, AllAfter, Partition, Unlink;
    ReapOk(s);
    if s.zombie != [] {
      var z := s.zombie[0];
      assert z in s.zombie;
      OnePool(s, z);
      assert StatusOf(s, z).Zombie?;
    }
  }

  /** Once a zombie's node is out of its row, no row holds the thread. */
  lemma ZombieGone(rows: Rows, m: map<int, Node<int>>, s: Sched, t: int)
    requires Filed(rows, m) && Partition(s) && t in m && s.threads == m.Keys && t in s.zombie && m[t] in rows[ZOMBIE]
    requires s.run == Elems(rows[RUN]) && s.wait == Elems(rows[WAIT]) && s.sleep == Elems(rows[SLEEP]) && s.zombie == Elems(rows[ZOMBIE])
    ensures Filed(rows[ZOMBIE := Unlink(rows[ZOMBIE], m[t])], m - {t})
    ensures Elems(Unlink(rows[ZOMBIE], m[t])) == Unlink(s.zombie, t)
  {
    hide Unlink, Elems;
    OnePool(s, t);
    LeftFiled(rows, m, ZOMBIE, m[t]);
    UnlinkHas(s.zombie, t);
    DroppedFiled(rows[ZOMBIE := Unlink(rows[ZOMBIE], m[t])], m, t);
  }

  lemma ExecutingByStatus(s: Sched)
    requires Ok(s)
    ensures s.threads <= s.tcbs.Keys
    ensures Executing(s) <==> s.cur == s.idle || (s.cur in s.threads && s.tcbs[s.cur].status.Running?)
  {
    OnePool(s, s.cur);
    if s.cur in s.threads { PoolOfStatus(s, s.cur); }
  }

  /** What the methods promise is what the step does. */
  lemma StepMatches(s: Sched, op: Op)
    requires Ok(s) && Enabled(s, op)
    ensures op.DescheduleOp? ==> Partition(s) && s.cur in s.tcbs && s.threads <= s.tcbs.Keys
    ensures op.MakeRunnableOp? ==> Safe(s, op.t) && Step(s, op) == if Moves(s, op.t) then MakeRunnable(s, op.t) else s
    ensures op.SleepOp? ==> Executing(s) && s.ticks + op.n <= MAX_INT && Step(s, op) == SleepFor(s, op.n)
    ensures op.YieldOp? ==> Step(s, op) == Switch(s)
    ensures op.CheckOp? ==> Step(s, op) == CheckTarget(s, op.t)
    ensures op.SwitchToOp? ==> s.cur in s.targets && TargetReady(s) && Step(s, op) == SwitchPending(s)
  {
    hide Switch, SleepFor, CheckTarget, SwitchPending, Labels, Sorted, AllAfter, Unlink;
  }

  lemma VanishStep(s: Sched)
    requires Ok(s) && Enabled(s, VanishOp)
    ensures Partition(s) && Ok(Step(s, VanishOp)) && s.cur in s.tcbs
    ensures s.cur in s.threads ==> s.cur in s.run && s.run != [] && s.tcbs[s.cur].status.Running?
    ensures Step(s, VanishOp) == if s.cur in s.threads then MovedTo(s, RUN, ZOMBIE, s.cur, Zombie).(cur := NO_THREAD) else s
  {
    StepOk(s, VanishOp);
    ExecutingRecord(s);
  }

  /** The place of a wake time does not depend on the record of the thread that is to sleep. */
  lemma KeyOfSleepers(s: Sched, w: nat)
    requires Partition(s) && s.cur in s.run
    ensures SortedPlace(s.sleep, WakeKey(s.tcbs[s.cur := Tcb(Sleeping, w)]), w) == Place(s, w)
  {
    OnePool(s, s.cur);
    SamePlace(s.sleep, WakeKey(s.tcbs[s.cur := Tcb(Sleeping, w)]), WakeKey(s.tcbs), w);
  }

  lemma DescheduleStep(s: Sched)
    requires Ok(s) && Enabled(s, DescheduleOp)
    ensures Ok(Step(s, DescheduleOp)) && Step(s, DescheduleOp) == if s.cur in s.threads then Deschedule(s) else s
    ensures s.cur in s.threads ==> s.cur in s.run && s.run != [] && !s.tcbs[s.cur].status.Waiting?
  {
    StepOk(s, DescheduleOp);
    ExecutingRecord(s);
  }

  lemma ExecutingRecord(s: Sched)
    requires Ok(s) && Executing(s)
    ensures Partition(s) && s.cur in s.tcbs && (s.cur in s.threads ==> s.cur in s.run && s.tcbs[s.cur].status.Running?)
  {
  }
}
