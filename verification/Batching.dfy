/**
  Creating and removing mappings, immediately or as tasks of a batch, and the theorem that
  a batch does what the same operations do one by one.
*/
module Batching {
  import opened Machine
  import opened Paging

  /** The part of a page directory the mapping operations touch. */
  datatype MapState = MapState(dir: Dir, tasks: seq<Task>, batch: bool)

  ghost predicate StateOk(st: MapState) { DirOk(st.dir) && TasksOk(st.dir, st.tasks) }

  datatype MapOp = Create(v: nat, p: nat, pteFlags: nat, pdeFlags: nat) | Remove(v: nat)

  /** What every caller passes: 32-bit addresses and directory flags with the present bit. */
  predicate OpOk(op: MapOp) {
    op.v < WORD && (op.Create? ==> EntryPresent(op.pdeFlags))
  }

  function PageOf(op: MapOp): nat { op.v / PAGE_SIZE }

  function Code(st: MapState, op: MapOp): int
    requires StateOk(st) && OpOk(op)
  {
    if op.v % PAGE_SIZE != 0 || (op.Create? && op.p % PAGE_SIZE != 0) then -1
    else if op.Create? then 0
    else if !HasTable(st.dir, PageOf(op)) then -2
    else if !Mapped(st.dir, PageOf(op)) then -3
    else 0
  }

  function Step(st: MapState, op: MapOp): (r: MapState)
    requires StateOk(st) && OpOk(op)
    ensures StateOk(r) && r.batch == st.batch
  {
    if Code(st, op) != 0 then st
    else
      match op
      case Create(v, p, pteFlags, pdeFlags) =>
        var dir := EnsureTable(st.dir, PageOf(op), pdeFlags);
        EnsureKeepsTasks(st.dir, st.tasks, PageOf(op), pdeFlags);
        if st.batch then MapState(dir, st.tasks + [Task(v, AddFlags(p, pteFlags), !HasTable(st.dir, PageOf(op)))], true)
        else
          TasksStayOk(dir, st.tasks, PageOf(op), AddFlags(p, pteFlags));
          MapState(Write(dir, PageOf(op), AddFlags(p, pteFlags)), st.tasks, false)
      case Remove(v) =>
        if st.batch then MapState(st.dir, st.tasks + [Task(v, 0, false)], true)
        else
          TasksStayOk(st.dir, st.tasks, PageOf(op), 0);
          MapState(Write(st.dir, PageOf(op), 0), st.tasks, false)
  }

  lemma EnsureKeepsTasks(dir: Dir, tasks: seq<Task>, p: nat, pdeFlags: nat)
    requires DirOk(dir) && TasksOk(dir, tasks) && p < NUM_PAGES && EntryPresent(pdeFlags)
    ensures TasksOk(EnsureTable(dir, p, pdeFlags), tasks)
  {
  }

  /** In a batch a creation only adds a task; the translation is untouched until commit. */
  lemma CreateInBatch(st: MapState, op: MapOp)
    requires StateOk(st) && OpOk(op) && st.batch && op.Create? && Code(st, op) == 0
    ensures Step(st, op).tasks == st.tasks + [Task(op.v, AddFlags(op.p, op.pteFlags), !HasTable(st.dir, PageOf(op)))]
    ensures Step(st, op).dir == EnsureTable(st.dir, PageOf(op), op.pdeFlags)
    ensures forall q: nat :: q < NUM_PAGES ==> Pte(Step(st, op).dir, q) == Pte(st.dir, q)
  {
    forall q: nat | q < NUM_PAGES ensures Pte(Step(st, op).dir, q) == Pte(st.dir, q) {
      EnsureTableView(st.dir, PageOf(op), op.pdeFlags, q);
    }
  }

  /** The state after all operations, and the codes they returned. */
  function Run(st: MapState, ops: seq<MapOp>): (r: (MapState, seq<int>))
    requires StateOk(st) && forall i :: 0 <= i < |ops| ==> OpOk(ops[i])
    ensures StateOk(r.0)
    decreases |ops|
  {
    if ops == [] then (st, [])
    else
      var rest := Run(Step(st, ops[0]), ops[1..]);
      (rest.0, [Code(st, ops[0])] + rest.1)
  }

  lemma {:induction false} CommitEnsure(dir: Dir, tasks: seq<Task>, p: nat, pdeFlags: nat)
    requires DirOk(dir) && TasksOk(dir, tasks) && p < NUM_PAGES && EntryPresent(pdeFlags)
    ensures TasksOk(EnsureTable(dir, p, pdeFlags), tasks)
    ensures CommitAll(EnsureTable(dir, p, pdeFlags), tasks) == EnsureTable(CommitAll(dir, tasks), p, pdeFlags)
    decreases |tasks|
  {
    EnsureKeepsTasks(dir, tasks, p, pdeFlags);
    if tasks != [] {
      var q, e := tasks[0].vAddr / PAGE_SIZE, tasks[0].pte;
      TasksStayOk(dir, tasks, q, e);
      CommitEnsure(Write(dir, q, e), tasks[1..], p, pdeFlags);
      assert Write(EnsureTable(dir, p, pdeFlags), q, e) == EnsureTable(Write(dir, q, e), p, pdeFlags);
    }
  }

  /** The batched directory with its tasks committed is the immediate directory. */
  ghost predicate Agree(now: MapState, later: MapState) {
    && StateOk(now) && StateOk(later) && !now.batch && later.batch
    && now.tasks == [] && now.dir == CommitAll(later.dir, later.tasks)
  }

  /** The operation gets past the alignment test. */
  predicate Aligned(op: MapOp) { op.v % PAGE_SIZE == 0 && (op.Create? ==> op.p % PAGE_SIZE == 0) }

  /** Whether page `p` is mapped after the operations, by the last of them that names it. */
  predicate PresentAfter(dir: Dir, ops: seq<MapOp>, p: nat)
    requires DirOk(dir) && p < NUM_PAGES
  {
    if ops == [] then Mapped(dir, p)
    else
      Touched(ops[|ops| - 1], p, PresentAfter(dir, ops[..|ops| - 1], p))
  }

  /** Whether page `p` is mapped after the operation, if it was mapped before as `was` says. */
  predicate Touched(op: MapOp, p: nat, was: bool) {
    if Aligned(op) && PageOf(op) == p then op.Create? && EntryPresent(AddFlags(op.p, op.pteFlags)) else was
  }

  /** Removal `j` finds its page as it was before the first operation. */
  ghost predicate SteadyAt(dir: Dir, ops: seq<MapOp>, j: nat)
    requires DirOk(dir) && j < |ops| && OpOk(ops[j])
  {
    ops[j].Remove? && Aligned(ops[j]) ==> (PresentAfter(dir, ops[..j], PageOf(ops[j])) <==> Mapped(dir, PageOf(ops[j])))
  }

  ghost predicate Steady(dir: Dir, ops: seq<MapOp>)
    requires DirOk(dir) && forall i :: 0 <= i < |ops| ==> OpOk(ops[i])
  {
    forall j :: 0 <= j < |ops| ==> SteadyAt(dir, ops, j)
  }

  /** After `k` operations: the immediate directory is what they make of `dir`, the batched one translates like `dir`. */
  ghost predicate After(dir: Dir, ops: seq<MapOp>, k: nat, now: MapState, later: MapState)
    requires DirOk(dir) && k <= |ops|
  {
    && Agree(now, later)
    && (forall p: nat {:trigger Mapped(now.dir, p)} :: p < NUM_PAGES ==> Mapped(now.dir, p) == PresentAfter(dir, ops[..k], p))
    && (forall p: nat {:trigger Pte(later.dir, p)} :: p < NUM_PAGES ==> Pte(later.dir, p) == Pte(dir, p))
  }

  lemma CodesDiffer(dir: Dir, ops: seq<MapOp>, k: nat, now: MapState, later: MapState)
    requires DirOk(dir) && k < |ops| && OpOk(ops[k]) && After(dir, ops, k, now, later)
    ensures Code(now, ops[k]) == Code(later, ops[k]) <==> SteadyAt(dir, ops, k)
  {
    hide CommitAll, PresentAfter, DirOk;
    var p := PageOf(ops[k]);
    CommitTables(later.dir, later.tasks, p);
    assert Mapped(now.dir, p) == PresentAfter(dir, ops[..k], p) && Mapped(later.dir, p) == Mapped(dir, p);
  }

  /** When the codes agree the effects do. */
  lemma StepAgrees(now: MapState, later: MapState, op: MapOp)
    requires Agree(now, later) && OpOk(op) && Code(now, op) == Code(later, op)
    ensures Agree(Step(now, op), Step(later, op))
  {
    var p := PageOf(op);
    CommitTables(later.dir, later.tasks, p);
    if Code(later, op) == 0 {
      match op
      case Create(v, q, pteFlags, pdeFlags) =>
        CommitEnsure(later.dir, later.tasks, p, pdeFlags);
        CommitSnoc(EnsureTable(later.dir, p, pdeFlags), later.tasks, Task(v, AddFlags(q, pteFlags), !HasTable(later.dir, p)));
      case Remove(v) =>
        CommitSnoc(later.dir, later.tasks, Task(v, 0, false));
    }
  }

  lemma StepView(st: MapState, op: MapOp, p: nat)
    requires StateOk(st) && OpOk(op) && p < NUM_PAGES
    ensures st.batch ==> Pte(Step(st, op).dir, p) == Pte(st.dir, p)
    ensures !st.batch ==> Mapped(Step(st, op).dir, p) == Touched(op, p, Mapped(st.dir, p))
  {
    hide AddFlags;
    if Code(st, op) == 0 {
      var q := PageOf(op);
      match op
      case Create(v, a, pteFlags, pdeFlags) =>
        var dir := EnsureTable(st.dir, q, pdeFlags);
        EnsureTableView(st.dir, q, pdeFlags, p);
        WriteView(dir, q, AddFlags(a, pteFlags), p);
      case Remove(v) => WriteView(st.dir, q, 0, p);
    }
  }

  lemma AfterStep(dir: Dir, ops: seq<MapOp>, k: nat, now: MapState, later: MapState)
    requires DirOk(dir) && k < |ops| && OpOk(ops[k]) && After(dir, ops, k, now, later) && Code(now, ops[k]) == Code(later, ops[k])
    ensures After(dir, ops, k + 1, Step(now, ops[k]), Step(later, ops[k]))
  {
    hide Step, DirOk, Pte, AddFlags, CommitAll;
    StepAgrees(now, later, ops[k]);
    var now', later' := Step(now, ops[k]), Step(later, ops[k]);
    forall p: nat | p < NUM_PAGES ensures Mapped(now'.dir, p) == PresentAfter(dir, ops[..k + 1], p) {
      assert ops[..k + 1][..k] == ops[..k];
      StepView(now, ops[k], p);
    }
    forall p: nat | p < NUM_PAGES ensures Pte(later'.dir, p) == Pte(dir, p) { StepView(later, ops[k], p); }
  }

  lemma {:induction false} RunExact(dir: Dir, ops: seq<MapOp>, k: nat, now: MapState, later: MapState)
    requires DirOk(dir) && k <= |ops| && (forall i :: 0 <= i < |ops| ==> OpOk(ops[i])) && After(dir, ops, k, now, later)
    ensures Run(now, ops[k..]).1 == Run(later, ops[k..]).1 <==> forall j :: k <= j < |ops| ==> SteadyAt(dir, ops, j)
    ensures Run(now, ops[k..]).1 == Run(later, ops[k..]).1 ==> Agree(Run(now, ops[k..]).0, Run(later, ops[k..]).0)
    decreases |ops| - k
  {
    hide Step, Code, SteadyAt, Agree, DirOk, TasksOk, OpOk;
    if k < |ops| {
      assert ops[k..][0] == ops[k] && ops[k..][1..] == ops[k + 1..];
      assert StateOk(now) && StateOk(later) by { AgreeOk(now, later); }
      CodesDiffer(dir, ops, k, now, later);
      var a, b := Run(now, ops[k..]), Run(later, ops[k..]);
      assert a.1[0] == Code(now, ops[k]) && b.1[0] == Code(later, ops[k]);
      if SteadyAt(dir, ops, k) {
        AfterStep(dir, ops, k, now, later);
        RunExact(dir, ops, k + 1, Step(now, ops[k]), Step(later, ops[k]));
        assert a.1[1..] == Run(Step(now, ops[k]), ops[k + 1..]).1 && b.1[1..] == Run(Step(later, ops[k]), ops[k + 1..]).1;
      }
    }
  }

  lemma AgreeOk(now: MapState, later: MapState)
    requires Agree(now, later)
    ensures StateOk(now) && StateOk(later)
  {
  }

  /**
    Batching refines immediate mapping exactly on the sequences in which every removal finds
    its page as it was before the batch: as begin, operations, commit they return the same
    codes and leave the same directory as executed at once, and no other sequence does.
  */
  lemma BatchIsImmediate(dir: Dir, ops: seq<MapOp>)
    requires DirOk(dir) && forall i :: 0 <= i < |ops| ==> OpOk(ops[i])
    ensures var now, later := Run(MapState(dir, [], false), ops), Run(MapState(dir, [], true), ops);
      now.1 == later.1 && now.0.dir == CommitAll(later.0.dir, later.0.tasks) <==> Steady(dir, ops)
  {
    hide SteadyAt, PresentAfter, Step, Code;
    assert ops[0..] == ops && ops[..0] == [];
    NothingDone(dir, ops);
    RunExact(dir, ops, 0, MapState(dir, [], false), MapState(dir, [], true));
  }

  lemma NothingDone(dir: Dir, ops: seq<MapOp>)
    requires DirOk(dir)
    ensures After(dir, ops, 0, MapState(dir, [], false), MapState(dir, [], true))
  {
    assert ops[..0] == [];
  }

  /** In particular: any creations, and removals at pages that no earlier operation names. */
  ghost predicate RemovesFresh(ops: seq<MapOp>) {
    forall i, j :: 0 <= i < j < |ops| && ops[j].Remove? ==> PageOf(ops[i]) != PageOf(ops[j])
  }

  lemma {:induction false} NotNamed(dir: Dir, ops: seq<MapOp>, p: nat)
    requires DirOk(dir) && p < NUM_PAGES && forall i :: 0 <= i < |ops| ==> PageOf(ops[i]) != p
    ensures PresentAfter(dir, ops, p) == Mapped(dir, p)
    decreases |ops|
  {
    if ops != [] { NotNamed(dir, ops[..|ops| - 1], p); }
  }

  lemma FreshIsSteady(dir: Dir, ops: seq<MapOp>)
    requires DirOk(dir) && (forall i :: 0 <= i < |ops| ==> OpOk(ops[i])) && RemovesFresh(ops)
    ensures Steady(dir, ops)
  {
    hide PresentAfter, DirOk;
    forall j | 0 <= j < |ops| ensures SteadyAt(dir, ops, j) {
      if ops[j].Remove? { NotNamed(dir, ops[..j], PageOf(ops[j])); }
    }
  }

  /**
    Creating and removing an unmapped page: in a batch the removal fails and the commit maps
    the page; executed at once both succeed and the page is unmapped.
  */
  lemma CreateRemoveDiffers(dir: Dir, v: nat, a: nat)
    requires DirOk(dir) && v < WORD && v % PAGE_SIZE == 0 && a % PAGE_SIZE == 0 && !Mapped(dir, v / PAGE_SIZE)
    ensures var ops := [Create(v, a, USER_WR, USER_WR), Remove(v)];
      var now, later := Run(MapState(dir, [], false), ops), Run(MapState(dir, [], true), ops);
      && now.1 == [0, 0] && !Mapped(now.0.dir, v / PAGE_SIZE)
      && later.1 == [0, -3] && Mapped(CommitAll(later.0.dir, later.0.tasks), v / PAGE_SIZE)
  {
    hide AddFlags;
    var p, c, r := v / PAGE_SIZE, Create(v, a, USER_WR, USER_WR), Remove(v);
    var ops := [c, r];
    assert ops[1..] == [r] && [r][1..] == [];
    AddFlagsParts(a, USER_WR);
    var now, later := MapState(dir, [], false), MapState(dir, [], true);
    StepView(now, c, p);
    StepView(later, c, p);
    StepView(Step(now, c), r, p);
    assert Run(Step(now, c), ops[1..]).1 == [0] + [];
    assert Run(Step(later, c), ops[1..]).1 == [-3] + [];
    var e := EnsureTable(dir, p, USER_WR);
    CommitOne(e, Task(v, AddFlags(a, USER_WR), !HasTable(dir, p)));
    WriteView(e, p, AddFlags(a, USER_WR), p);
  }

  lemma CommitOne(dir: Dir, t: Task)
    requires DirOk(dir) && TasksOk(dir, [t]) && t.vAddr < WORD && HasTable(dir, t.vAddr / PAGE_SIZE)
    ensures CommitAll(dir, [t]) == Write(dir, t.vAddr / PAGE_SIZE, t.pte)
  {
    assert [t][1..] == [];
  }

  /** Removing one page twice succeeds twice in a batch only. */
  lemma DoubleRemoveDiffers(dir: Dir, v: nat)
    requires DirOk(dir) && v < WORD && v % PAGE_SIZE == 0 && Mapped(dir, v / PAGE_SIZE)
    ensures var ops := [Remove(v), Remove(v)];
      Run(MapState(dir, [], true), ops).1 == [0, 0] && Run(MapState(dir, [], false), ops).1 == [0, -3]
  {
    var ops := [Remove(v), Remove(v)];
    var now, later := MapState(dir, [], false), MapState(dir, [], true);
    assert ops[1..] == [Remove(v)] && [Remove(v)][1..] == [];
    WriteView(dir, v / PAGE_SIZE, 0, v / PAGE_SIZE);
    assert Run(Step(later, ops[0]), ops[1..]).1 == [0] + [];
    assert Run(Step(now, ops[0]), ops[1..]).1 == [-3] + [];
  }
}
