/**
  The page directory object: the two-level table, the list of physical frames charged to
  it, and the batch of pending mapping tasks.
*/
module PageDirectories {
  import opened Machine
  import opened Paging
  import opened Batching

  /** A frame remembered by a directory: base address and number of pages asked for. */
  datatype Meta = Meta(addr: nat, n: nat)

  function SumPages(ms: seq<Meta>): nat { if ms == [] then 0 else ms[0].n + SumPages(ms[1..]) }

  /** Position of the first frame based at `a`, or the length of the list. */
  function FindFrame(ms: seq<Meta>, a: nat): (k: nat)
    ensures k <= |ms| && (k < |ms| ==> ms[k].addr == a)
    ensures forall j :: 0 <= j < k ==> ms[j].addr != a
  {
    if ms == [] || ms[0].addr == a then 0 else 1 + FindFrame(ms[1..], a)
  }

  function Without<T>(s: seq<T>, k: nat): seq<T>
    requires k < |s|
  {
    s[..k] + s[k + 1..]
  }

  lemma {:induction false} SumWithout(ms: seq<Meta>, k: nat)
    requires k < |ms|
    ensures SumPages(ms) == SumPages(Without(ms, k)) + ms[k].n
  {
    if k > 0 {
      SumWithout(ms[1..], k - 1);
      assert Without(ms, k)[1..] == Without(ms[1..], k - 1);
    } else {
      assert Without(ms, k) == ms[1..];
    }
  }

  /** The entry of page `q` after mapping `|flags|` pages from page `s` on. */
  function PteAfterMap(dir: Dir, s: nat, pBase: nat, flags: seq<nat>, q: nat): nat
    requires DirOk(dir) && q < NUM_PAGES
  {
    if s <= q < s + |flags| then AddFlags(pBase + (q - s) * PAGE_SIZE, flags[q - s]) else Pte(dir, q)
  }

  class PageDirectory {
    var dir: Dir
    var tasks: seq<Task>
    var batch: bool
    var numPages: nat
    var frames: seq<Meta>

    ghost function St(): MapState
      reads this
    {
      MapState(dir, tasks, batch)
    }

    ghost predicate Valid()
      reads this
    {
      StateOk(St()) && numPages == SumPages(frames)
    }

    /** Between calls no batch is open. */
    ghost predicate Quiet()
      reads this
    {
      Valid() && !batch && tasks == []
    }

    /** A directory with the given kernel part and no user table. */
    constructor (kernel: seq<Pde>)
      requires |kernel| == NUM_KERNEL_PDE && forall i :: 0 <= i < |kernel| && PdePresent(kernel[i]) ==> |kernel[i].ptes| == NUM_ENTRIES
      ensures Quiet() && frames == [] && numPages == 0 && dir[..NUM_KERNEL_PDE] == kernel
      ensures forall p :: FIRST_USER_PAGE <= p < NUM_PAGES ==> !HasTable(dir, p)
    {
      dir := kernel + seq(NUM_ENTRIES - NUM_KERNEL_PDE, _ => Pde(0, []));
      tasks, batch, numPages, frames := [], false, 0, [];
    }

    method GetMapping(vAddr: nat) returns (code: int, pte: nat)
      requires Valid() && vAddr < WORD
      ensures code == 0 || code == -2 || code == -3
      ensures code == 0 <==> Mapped(dir, vAddr / PAGE_SIZE)
      ensures code == -2 <==> !HasTable(dir, vAddr / PAGE_SIZE)
      ensures code == 0 ==> pte == Pte(dir, vAddr / PAGE_SIZE)
    {
      IndexBijection(vAddr);
      var d, t := PdeIndex(vAddr), PteIndex(vAddr);
      if !PdePresent(dir[d]) { return -2, 0; }
      var e := dir[d].ptes[t];
      if !EntryPresent(e) { return -3, 0; }
      return 0, e;
    }

    /** What user code may do with a mapped address: privilege and access, by both levels. */
    method GetPermissions(vAddr: nat) returns (code: int, priv: int, access: int)
      requires Valid() && vAddr < WORD
      ensures code == (if !HasTable(dir, vAddr / PAGE_SIZE) then -2 else if !Mapped(dir, vAddr / PAGE_SIZE) then -3 else 0)
      ensures code == 0 ==> priv == if UserReads(dir, vAddr / PAGE_SIZE) then 1 else 0
      ensures code == 0 ==> access == if UserReads(dir, vAddr / PAGE_SIZE) && !UserWrites(dir, vAddr / PAGE_SIZE) then 0 else 1
    {
      hide Writable, UserMode;
      IndexBijection(vAddr);
      var d, t := PdeIndex(vAddr), PteIndex(vAddr);
      if !PdePresent(dir[d]) { return -2, 0, 0; }
      var e := dir[d].ptes[t];
      if !EntryPresent(e) { return -3, 0, 0; }
      priv := if UserMode(dir[d].flags) && UserMode(e) then 1 else 0;
      access := if priv == 0 || (Writable(dir[d].flags) && Writable(e)) then 1 else 0;
      return 0, priv, access;
    }

    method BeginMapping() returns (code: int)
      modifies this`batch
      ensures code == (if old(batch) then -2 else 0) && batch
    {
      if batch { return -2; }
      batch := true;
      return 0;
    }

    /**
      Drops the pending tasks and frees the tables that were made for them.  The directory is
      left as it is, so each of its entries in `freed` still points to a table that is gone.
    */
    method AbortMapping() returns (freed: set<nat>)
      requires Valid()
      modifies this`batch, this`tasks
      ensures Quiet() && freed == MadeFor(old(tasks)) && forall d :: d in freed ==> d < NUM_ENTRIES && PdePresent(dir[d])
    {
      freed := {};
      while |tasks| > 0
        invariant Valid() && freed + MadeFor(tasks) == MadeFor(old(tasks))
        invariant forall d :: d in freed ==> d < NUM_ENTRIES && PdePresent(dir[d])
      {
        IndexBijection(tasks[0].vAddr);
        assert tasks == [tasks[0]] + tasks[1..];
        if tasks[0].isNew { freed := freed + {PdeIndex(tasks[0].vAddr)}; }
        tasks := tasks[1..];
      }
      batch := false;
    }

    method CommitMapping()
      requires Valid()
      modifies this`dir, this`batch, this`tasks
      ensures Quiet() && dir == CommitAll(old(dir), old(tasks))
    {
      while |tasks| > 0
        invariant Valid() && CommitAll(dir, tasks) == CommitAll(old(dir), old(tasks))
      {
        var task := tasks[0];
        IndexBijection(task.vAddr);
        var d, t := PdeIndex(task.vAddr), PteIndex(task.vAddr);
        TasksStayOk(dir, tasks, task.vAddr / PAGE_SIZE, task.pte);
        var e := dir[d];
        assert dir[d := Pde(e.flags, e.ptes[t := task.pte])] == Write(dir, task.vAddr / PAGE_SIZE, task.pte);
        dir := dir[d := Pde(e.flags, e.ptes[t := task.pte])];
        tasks := tasks[1..];
      }
      batch := false;
    }

    method CreateMapping(vAddr: nat, pAddr: nat, pteFlags: nat, pdeFlags: nat) returns (code: int)
      requires Valid() && OpOk(Create(vAddr, pAddr, pteFlags, pdeFlags))
      modifies this`dir, this`tasks
      ensures Valid() && code == Code(old(St()), Create(vAddr, pAddr, pteFlags, pdeFlags))
      ensures St() == Step(old(St()), Create(vAddr, pAddr, pteFlags, pdeFlags))
      ensures code < 0 ==> unchanged(this)
      ensures code == if vAddr % PAGE_SIZE == 0 && pAddr % PAGE_SIZE == 0 then 0 else -1
    {
      if vAddr % PAGE_SIZE != 0 || pAddr % PAGE_SIZE != 0 { return -1; }
      IndexBijection(vAddr);
      var d, t := PdeIndex(vAddr), PteIndex(vAddr);
      ghost var p := vAddr / PAGE_SIZE;
      EnsureKeepsTasks(dir, tasks, p, pdeFlags);
      var pte := AddFlags(pAddr, pteFlags);
      var isNew := !PdePresent(dir[d]);
      if isNew {
        dir := dir[d := Pde(pdeFlags, ZeroTable())];
      }
      if batch {
        tasks := tasks + [Task(vAddr, pte, isNew)];
      } else {
        dir := dir[d := Pde(dir[d].flags, dir[d].ptes[t := pte])];
      }
      return 0;
    }

    method RemoveMapping(vAddr: nat) returns (code: int)
      requires Valid() && OpOk(Remove(vAddr))
      modifies this`dir, this`tasks
      ensures Valid() && code == Code(old(St()), Remove(vAddr))
      ensures St() == Step(old(St()), Remove(vAddr))
      ensures code < 0 ==> unchanged(this)
      ensures code == -1 <==> vAddr % PAGE_SIZE != 0
      ensures code == -2 <==> code != -1 && !HasTable(old(dir), vAddr / PAGE_SIZE)
      ensures code == 0 <==> code != -1 && Mapped(old(dir), vAddr / PAGE_SIZE)
      ensures code == 0 || code == -1 || code == -2 || code == -3
    {
      if vAddr % PAGE_SIZE != 0 { return -1; }
      IndexBijection(vAddr);
      var d, t := PdeIndex(vAddr), PteIndex(vAddr);
      if !PdePresent(dir[d]) { return -2; }
      if !EntryPresent(dir[d].ptes[t]) { return -3; }
      if batch {
        tasks := tasks + [Task(vAddr, 0, false)];
      } else {
        dir := dir[d := Pde(dir[d].flags, dir[d].ptes[t := 0])];
      }
      return 0;
    }

    /** Runs the operations as one batch; the result is that of running them one by one exactly when every removal is steady. */
    method MapInBatch(ops: seq<MapOp>) returns (codes: seq<int>)
      requires Quiet() && forall i :: 0 <= i < |ops| ==> OpOk(ops[i])
      modifies this
      ensures Quiet() && frames == old(frames) && numPages == old(numPages)
      ensures MapState(dir, [], false) == Run(old(St()), ops).0 && codes == Run(old(St()), ops).1 <==> Steady(old(dir), ops)
    {
      hide Step, Code, DirOk, TasksOk, SteadyAt, CommitAll;
      BatchIsImmediate(dir, ops);
      RunKeepsMode(St(), ops);
      var begun := BeginMapping();
      codes := [];
      ghost var st := St();
      for i := 0 to |ops|
        invariant Valid() && batch && frames == old(frames) && numPages == old(numPages)
        invariant st == MapState(old(dir), [], true) && St().batch
        invariant Run(st, ops).0 == Run(St(), ops[i..]).0
        invariant Run(st, ops).1 == codes + Run(St(), ops[i..]).1
      {
        var code;
        assert ops[i..][0] == ops[i] && ops[i..][1..] == ops[i + 1..];
        match ops[i] {
          case Create(v, p, pteFlags, pdeFlags) => code := CreateMapping(v, p, pteFlags, pdeFlags);
          case Remove(v) => code := RemoveMapping(v);
        }
        codes := codes + [code];
      }
      assert ops[|ops|..] == [];
      CommitMapping();
    }

    /** Aborts a batch in which nothing has been made; no table is freed. */
    method Abandon()
      requires Valid() && MadeFor(tasks) == {}
      modifies this`batch, this`tasks
      ensures Quiet()
    {
      var freed := AbortMapping();
      if freed != {} { assert false; }
    }

    /** Queues one mapping, or closes a batch that has not made anything. */
    method QueueOne(vAddr: nat, pAddr: nat, flags: nat, pdeFlags: nat) returns (code: int)
      requires Valid() && batch && vAddr < WORD && EntryPresent(pdeFlags)
      requires (vAddr % PAGE_SIZE == 0 && pAddr % PAGE_SIZE == 0) || MadeFor(tasks) == {}
      modifies this`dir, this`tasks, this`batch
      ensures Valid() && code == if vAddr % PAGE_SIZE == 0 && pAddr % PAGE_SIZE == 0 then 0 else -1
      ensures code < 0 ==> Quiet() && dir == old(dir)
      ensures code == 0 ==> batch && |tasks| == |old(tasks)| + 1 && tasks[..|old(tasks)|] == old(tasks)
      ensures code == 0 ==> var t := tasks[|old(tasks)|]; t.vAddr == vAddr && t.pte == AddFlags(pAddr, flags)
      ensures code == 0 ==> DirOk(old(dir)) && dir == EnsureTable(old(dir), vAddr / PAGE_SIZE, pdeFlags)
    {
      hide Step, AddFlags, TasksOk, DirOk, Pte, EntryPresent, MadeFor, SumPages;
      ghost var st := St();
      code := CreateMapping(vAddr, pAddr, flags, pdeFlags);
      if code < 0 {
        Abandon();
      } else {
        CreateInBatch(st, Create(vAddr, pAddr, flags, pdeFlags));
      }
    }

    /** Queues the mappings of the pages from `vBase` on; only the tables they need are made yet. */
    method QueuePages(vBase: nat, pBase: nat, flags: seq<nat>, pdeFlags: seq<nat>) returns (code: int)
      requires Quiet() && |flags| == |pdeFlags| > 0 && vBase + |flags| * PAGE_SIZE <= WORD
      requires forall i :: 0 <= i < |pdeFlags| ==> EntryPresent(pdeFlags[i])
      modifies this`dir, this`tasks, this`batch
      ensures Valid() && code == if vBase % PAGE_SIZE == 0 && pBase % PAGE_SIZE == 0 then 0 else -1
      ensures code < 0 ==> Quiet() && dir == old(dir)
      ensures code == 0 ==> |tasks| == |flags| && Consecutive(tasks, vBase / PAGE_SIZE)
      ensures code == 0 ==> forall k :: 0 <= k < |tasks| ==> tasks[k].pte == AddFlags(pBase + k * PAGE_SIZE, flags[k])
      ensures code == 0 ==> forall q: nat :: q < NUM_PAGES ==> Pte(dir, q) == Pte(old(dir), q)
      ensures code == 0 ==> TablesMade(old(dir), dir, vBase / PAGE_SIZE, pdeFlags)
    {
      hide Step, AddFlags, TasksOk, DirOk, Pte, TablesMade, EntryPresent, PdeIndex, EnsureTable, HasTable, SumPages;
      assert TablesMade(dir, dir, vBase / PAGE_SIZE, pdeFlags[..0]) by { NothingMade(dir, vBase / PAGE_SIZE); }
      var begun := BeginMapping();
      var vAddr, pAddr := vBase, pBase;
      for i := 0 to |flags|
        invariant Valid() && batch && |tasks| == i && Consecutive(tasks, vBase / PAGE_SIZE)
        invariant vAddr == Wrap(vBase + i * PAGE_SIZE) && pAddr == pBase + i * PAGE_SIZE
        invariant i > 0 ==> vBase % PAGE_SIZE == 0 && pBase % PAGE_SIZE == 0
        invariant i == 0 ==> dir == old(dir)
        invariant forall k :: 0 <= k < i ==> tasks[k].pte == AddFlags(pBase + k * PAGE_SIZE, flags[k])
        invariant forall q: nat :: q < NUM_PAGES ==> Pte(dir, q) == Pte(old(dir), q)
        invariant TablesMade(old(dir), dir, vBase / PAGE_SIZE, pdeFlags[..i])
      {
        ghost var before, queued := dir, tasks;
        code := QueueOne(vAddr, pAddr, flags[i], pdeFlags[i]);
        if code < 0 { return -1; }
        assert forall k :: 0 <= k < i ==> tasks[k] == queued[k] by { assert tasks[..i] == queued; }
        assert vAddr / PAGE_SIZE == vBase / PAGE_SIZE + i;
        TablesMadeStep(old(dir), before, vBase / PAGE_SIZE, pdeFlags, i);
        forall q: nat | q < NUM_PAGES ensures Pte(dir, q) == Pte(old(dir), q) { EnsureTableView(before, vAddr / PAGE_SIZE, pdeFlags[i], q); }
        vAddr, pAddr := Wrap(vAddr + PAGE_SIZE), pAddr + PAGE_SIZE;
      }
      assert pdeFlags[..|flags|] == pdeFlags;
      return 0;
    }

    /** Maps the pages from `vBase` on to consecutive physical pages as one batch; the flags are asked for page by page. */
    method MapPages(vBase: nat, pBase: nat, flags: seq<nat>, pdeFlags: seq<nat>) returns (code: int)
      requires Quiet() && |flags| == |pdeFlags| > 0 && vBase + |flags| * PAGE_SIZE <= WORD
      requires forall i :: 0 <= i < |pdeFlags| ==> EntryPresent(pdeFlags[i])
      modifies this`dir, this`tasks, this`batch
      ensures Quiet() && code == if vBase % PAGE_SIZE == 0 && pBase % PAGE_SIZE == 0 then 0 else -1
      ensures code < 0 ==> dir == old(dir)
      ensures code == 0 ==> forall q: nat :: q < NUM_PAGES ==> Pte(dir, q) == PteAfterMap(old(dir), vBase / PAGE_SIZE, pBase, flags, q)
      ensures code == 0 ==> TablesMade(old(dir), dir, vBase / PAGE_SIZE, pdeFlags)
    {
      hide AddFlags, TasksOk, DirOk, Pte, TablesMade, EntryPresent;
      code := QueuePages(vBase, pBase, flags, pdeFlags);
      if code < 0 { return; }
      forall q: nat | q < NUM_PAGES ensures Pte(CommitAll(dir, tasks), q) == PteAfterMap(old(dir), vBase / PAGE_SIZE, pBase, flags, q) {
        CommitConsecutive(dir, tasks, vBase / PAGE_SIZE, q);
      }
      MadeThenCommitted(old(dir), dir, tasks, vBase / PAGE_SIZE, pdeFlags);
      CommitMapping();
    }

    method AllocFrame(addr: nat, n: nat)
      requires Valid()
      modifies this`frames, this`numPages
      ensures Valid() && frames == [Meta(addr, n)] + old(frames) && numPages == old(numPages) + n
    {
      numPages := numPages + n;
      frames := [Meta(addr, n)] + frames;
    }

    method DeallocFrame(addr: nat) returns (code: int, size: nat)
      requires Valid()
      modifies this`frames, this`numPages
      ensures Valid()
      ensures code == if FindFrame(old(frames), addr) < |old(frames)| then 0 else -2
      ensures code < 0 ==> unchanged(this)
      ensures code == 0 ==> frames == Without(old(frames), FindFrame(old(frames), addr))
      ensures code == 0 ==> size == old(frames)[FindFrame(old(frames), addr)].n
    {
      var k := 0;
      while k < |frames| && frames[k].addr != addr
        invariant k <= |frames| && FindFrame(frames, addr) == k + FindFrame(frames[k..], addr)
      {
        k := k + 1;
      }
      if k == |frames| { return -2, 0; }
      SumWithout(frames, k);
      size := frames[k].n;
      numPages := numPages - size;
      frames := Without(frames, k);
      return 0, size;
    }

    /** Empties the frame list into `addrs`, in list order. */
    method DeallocAllFrames() returns (addrs: seq<nat>)
      requires Valid()
      modifies this`frames, this`numPages
      ensures Valid() && frames == [] && numPages == 0
      ensures |addrs| == |old(frames)| && forall k :: 0 <= k < |addrs| ==> addrs[k] == old(frames)[k].addr
    {
      addrs := [];
      while |frames| > 0
        invariant |addrs| + |frames| == |old(frames)| && frames == old(frames)[|addrs|..]
        invariant forall k :: 0 <= k < |addrs| ==> addrs[k] == old(frames)[k].addr
        invariant StateOk(St())
      {
        addrs := addrs + [frames[0].addr];
        frames := frames[1..];
      }
      numPages := 0;
    }

    /** Drops every user page table. */
    method ClearUserTables()
      requires Valid() && tasks == []
      modifies this`dir
      ensures Valid() && forall p :: 0 <= p < NUM_PAGES ==> HasTable(dir, p) == (p < FIRST_USER_PAGE && HasTable(old(dir), p))
      ensures forall p :: 0 <= p < FIRST_USER_PAGE ==> Pte(dir, p) == Pte(old(dir), p)
      ensures dir[..NUM_KERNEL_PDE] == old(dir)[..NUM_KERNEL_PDE]
    {
      for i := NUM_KERNEL_PDE to NUM_ENTRIES
        invariant DirOk(dir)
        invariant forall k :: 0 <= k < NUM_KERNEL_PDE || i <= k < NUM_ENTRIES ==> dir[k] == old(dir)[k]
        invariant forall k :: NUM_KERNEL_PDE <= k < i ==> !PdePresent(dir[k])
      {
        if PdePresent(dir[i]) { dir := dir[i := Pde(0, [])]; }
      }
    }
  }

  lemma {:induction false} RunKeepsMode(st: MapState, ops: seq<MapOp>)
    requires StateOk(st) && forall i :: 0 <= i < |ops| ==> OpOk(ops[i])
    ensures Run(st, ops).0.batch == st.batch && (!st.batch ==> Run(st, ops).0.tasks == st.tasks)
    decreases |ops|
  {
    if ops != [] { RunKeepsMode(Step(st, ops[0]), ops[1..]); }
  }

  lemma NothingMade(dir: Dir, s: nat)
    requires DirOk(dir)
    ensures TablesMade(dir, dir, s, [])
  {
  }

  lemma MadeThenCommitted(dir: Dir, dir': Dir, tasks: seq<Task>, s: nat, flags: seq<nat>)
    requires DirOk(dir') && TasksOk(dir', tasks) && TablesMade(dir, dir', s, flags)
    ensures TablesMade(dir, CommitAll(dir', tasks), s, flags)
  {
    hide MadeFlags, CommitAll;
    CommitFlags(dir', tasks);
  }

  // ---- The kernel's tables -------------------------------------------------

  /** The tables every directory shares. */
  ghost predicate KernelTables(kernel: seq<Pde>) {
    |kernel| == NUM_KERNEL_PDE && forall i :: 0 <= i < |kernel| ==> KernelEntry(kernel[i], i)
  }

  ghost predicate KernelEntry(e: Pde, i: nat) {
    KernelTable(e.flags) && |e.ptes| == NUM_ENTRIES && forall t :: 0 <= t < NUM_ENTRIES ==> KernelPage(e.ptes[t], i * NUM_ENTRIES + t)
  }

  /** They are what makes a directory map the kernel. */
  lemma KernelMapped(dir: Dir)
    requires DirOk(dir)
    ensures KernelMap(dir) <==> KernelTables(dir[..NUM_KERNEL_PDE])
  {
    hide KernelPage, Writable, UserMode;
    if KernelMap(dir) {
      forall i, t | 0 <= i < NUM_KERNEL_PDE && 0 <= t < NUM_ENTRIES ensures KernelPage(dir[i].ptes[t], i * NUM_ENTRIES + t) {
        assert Pte(dir, i * NUM_ENTRIES + t) == dir[i].ptes[t];
      }
    }
    if KernelTables(dir[..NUM_KERNEL_PDE]) {
      forall p: nat | p < FIRST_USER_PAGE ensures KernelPage(Pte(dir, p), p) {
        var i, t := p / NUM_ENTRIES, p % NUM_ENTRIES;
        assert KernelEntry(dir[..NUM_KERNEL_PDE][i], i) && KernelPage(dir[i].ptes[t], i * NUM_ENTRIES + t);
      }
    }
  }

  const KERNEL_PTE: nat := 0x103
  const KERNEL_PDE: nat := 3

  /** Whatever tables there are, they are the kernel's alone. */
  ghost predicate TablesForKernel(dir: Dir) {
    |dir| == NUM_ENTRIES && forall i :: 0 <= i < NUM_ENTRIES && PdePresent(dir[i]) ==> KernelTable(dir[i].flags)
  }

  lemma NoTables(dir: Dir)
    requires DirOk(dir) && dir[..NUM_KERNEL_PDE] == seq(NUM_KERNEL_PDE, _ => Pde(0, []))
    requires forall p :: FIRST_USER_PAGE <= p < NUM_PAGES ==> !HasTable(dir, p)
    ensures TablesForKernel(dir) && forall p: nat :: p < FIRST_USER_PAGE ==> Pte(dir, p) == 0
  {
    forall i | 0 <= i < NUM_ENTRIES ensures !PdePresent(dir[i]) {
      if i < NUM_KERNEL_PDE { assert dir[..NUM_KERNEL_PDE][i] == Pde(0, []); } else { assert !HasTable(dir, i * NUM_ENTRIES); }
    }
  }

  /** Every kernel page is mapped, so every kernel table is there. */
  lemma AllTables(dir: Dir)
    requires DirOk(dir) && TablesForKernel(dir)
    requires forall p: nat :: p < FIRST_USER_PAGE ==> KernelPage(Pte(dir, p), p)
    ensures KernelMap(dir)
  {
    hide IsStart, IsEnd;
    forall i | 0 <= i < NUM_KERNEL_PDE ensures KernelTable(dir[i].flags) {
      assert KernelPage(Pte(dir, i * NUM_ENTRIES + 1), i * NUM_ENTRIES + 1);
    }
  }

  lemma KernelWord(i: nat)
    requires 0 < i < FIRST_USER_PAGE
    ensures KernelPage(AddFlags(i * PAGE_SIZE, KERNEL_PTE), i)
  {
    hide AddFlags;
    AddFlagsParts(i * PAGE_SIZE, KERNEL_PTE);
    AddFlagsAccess(i * PAGE_SIZE, KERNEL_PTE);
  }

  /** Mapping one more page to itself. */
  lemma KernelStep(st: MapState, op: MapOp, i: nat)
    requires StateOk(st) && !st.batch && op == Create(i * PAGE_SIZE, i * PAGE_SIZE, KERNEL_PTE, KERNEL_PDE) && 0 < i < FIRST_USER_PAGE
    requires TablesForKernel(st.dir)
    ensures TablesForKernel(Step(st, op).dir) && Step(st, op).tasks == st.tasks
    ensures forall p: nat :: p < FIRST_USER_PAGE ==> Pte(Step(st, op).dir, p) == if p == i then AddFlags(i * PAGE_SIZE, KERNEL_PTE) else Pte(st.dir, p)
  {
    hide AddFlags;
    forall p: nat | p < FIRST_USER_PAGE ensures Pte(Step(st, op).dir, p) == if p == i then AddFlags(i * PAGE_SIZE, KERNEL_PTE) else Pte(st.dir, p) {
      var dir := EnsureTable(st.dir, i, KERNEL_PDE);
      EnsureTableView(st.dir, i, KERNEL_PDE, p);
      WriteView(dir, i, AddFlags(i * PAGE_SIZE, KERNEL_PTE), p);
    }
  }

  /** Makes the kernel's tables, with a directory that is used for nothing else. */
  method InitKernel() returns (kernel: seq<Pde>)
    ensures KernelTables(kernel)
  {
    hide AddFlags, Step, DirOk, Pte, Writable, UserMode, Global, IsStart, IsEnd, Phys;
    var temp := new PageDirectory(seq(NUM_KERNEL_PDE, _ => Pde(0, [])));
    NoTables(temp.dir);
    for i := 1 to FIRST_USER_PAGE
      invariant temp.Quiet() && fresh(temp)
      invariant forall p: nat :: p < FIRST_USER_PAGE ==> if p < i then KernelPage(Pte(temp.dir, p), p) else Pte(temp.dir, p) == 0
      invariant TablesForKernel(temp.dir)
    {
      ghost var st, op := temp.St(), Create(i * PAGE_SIZE, i * PAGE_SIZE, KERNEL_PTE, KERNEL_PDE);
      var code := temp.CreateMapping(i * PAGE_SIZE, i * PAGE_SIZE, KERNEL_PTE, KERNEL_PDE);
      KernelStep(st, op, i);
      KernelWord(i);
    }
    AllTables(temp.dir);
    KernelMapped(temp.dir);
    kernel := temp.dir[..NUM_KERNEL_PDE];
  }
}
