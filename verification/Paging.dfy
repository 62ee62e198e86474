/**
  The two-level page table as a value: 1024 directory entries, each present one holding a
  table of 1024 page table entries.  An entry is the 32-bit word the hardware reads: a
  page-aligned physical address with flag bits in its low twelve bits.
*/
module Paging {
  import opened Machine

  const NUM_ENTRIES: nat := 1024
  const NUM_PAGES: nat := 0x10_0000
  const FIRST_USER_PAGE: nat := USER_MEM_START / PAGE_SIZE
  const NUM_KERNEL_PDE: nat := FIRST_USER_PAGE / NUM_ENTRIES

  const USER_WR: nat := 7
  const START_BIT: nat := 512
  const END_BIT: nat := 1024

  // ---- Entry words ---------------------------------------------------------

  predicate EntryPresent(e: nat) { e % 2 == 1 }
  predicate IsStart(e: nat) { e / START_BIT % 2 == 1 }
  predicate IsEnd(e: nat) { e / END_BIT % 2 == 1 }
  function FlagsOf(e: nat): nat { e % PAGE_SIZE }
  function RemoveFlags(e: nat): nat { e - e % PAGE_SIZE }

  /** Number of the physical page an entry points to. */
  function Phys(e: nat): nat { e / PAGE_SIZE }

  function AddFlags(a: nat, f: nat): nat { BitOr(a, f) }

  lemma StartShift(x: nat, f: nat)
    ensures (x * 4096 + f) / 512 == 8 * x + f / 512
  {
    var q, r := f / 512, f % 512;
    assert x * 4096 + f == 512 * (8 * x + q) + r;
  }

  lemma EndShift(x: nat, f: nat)
    ensures (x * 4096 + f) / 1024 == 4 * x + f / 1024
  {
    var q, r := f / 1024, f % 1024;
    assert x * 4096 + f == 1024 * (4 * x + q) + r;
  }

  lemma ParityShift(k: nat, a: nat)
    ensures (2 * k + a) % 2 == a % 2
  {
  }

  lemma FlagBits(e: nat)
    ensures EntryPresent(e) == EntryPresent(FlagsOf(e)) && IsStart(e) == IsStart(FlagsOf(e)) && IsEnd(e) == IsEnd(FlagsOf(e))
  {
    var x, f := e / 4096, e % 4096;
    calc { e; x * 4096 + f; 2 * (2048 * x) + f; }
    StartShift(x, f);
    EndShift(x, f);
    ParityShift(2048 * x, f);
    ParityShift(4 * x, f / 512);
    ParityShift(2 * x, f / 1024);
  }

  lemma AddFlagsParts(a: nat, f: nat)
    requires a % PAGE_SIZE == 0 && f < PAGE_SIZE
    ensures AddFlags(a, f) == a + f
    ensures FlagsOf(AddFlags(a, f)) == f && RemoveFlags(AddFlags(a, f)) == a && Phys(AddFlags(a, f)) == a / PAGE_SIZE
    ensures EntryPresent(AddFlags(a, f)) == EntryPresent(f)
    ensures IsStart(AddFlags(a, f)) == IsStart(f) && IsEnd(AddFlags(a, f)) == IsEnd(f)
  {
    hide BitOr, IsStart, IsEnd, EntryPresent;
    BitOrFlags(a, f);
    FlagBits(AddFlags(a, f));
  }

  /** The access bits, which mean the same in both levels. */
  predicate Writable(e: nat) { e / 2 % 2 == 1 }
  predicate UserMode(e: nat) { e / 4 % 2 == 1 }
  predicate Global(e: nat) { e / 256 % 2 == 1 }

  /** All three bits user code needs to read and write. */
  predicate Open(e: nat) { EntryPresent(e) && Writable(e) && UserMode(e) }

  lemma LowShift(x: nat, f: nat)
    ensures (x * 4096 + f) / 2 == 2 * (1024 * x) + f / 2 && (x * 4096 + f) / 4 == 2 * (512 * x) + f / 4
    ensures (x * 4096 + f) / 256 == 2 * (8 * x) + f / 256
  {
    var r2, r4, r8 := f % 2, f % 4, f % 256;
    assert x * 4096 + f == 2 * (2048 * x + f / 2) + r2;
    assert x * 4096 + f == 4 * (1024 * x + f / 4) + r4;
    assert x * 4096 + f == 256 * (16 * x + f / 256) + r8;
  }

  lemma AccessBits(e: nat)
    ensures Writable(e) == Writable(FlagsOf(e)) && UserMode(e) == UserMode(FlagsOf(e)) && Global(e) == Global(FlagsOf(e))
  {
    var x, f := e / 4096, e % 4096;
    assert e == x * 4096 + f;
    LowShift(x, f);
    ParityShift(1024 * x, f / 2);
    ParityShift(512 * x, f / 4);
    ParityShift(8 * x, f / 256);
  }

  lemma AddFlagsAccess(a: nat, f: nat)
    requires a % PAGE_SIZE == 0 && f < PAGE_SIZE
    ensures var e := AddFlags(a, f); Writable(e) == Writable(f) && UserMode(e) == UserMode(f) && Global(e) == Global(f)
  {
    hide AddFlags, Writable, UserMode, Global, EntryPresent, IsStart, IsEnd;
    AddFlagsParts(a, f);
    AccessBits(AddFlags(a, f));
  }

  // ---- Index arithmetic ----------------------------------------------------

  function PdeIndex(vAddr: nat): nat { vAddr / 0x40_0000 % NUM_ENTRIES }
  function PteIndex(vAddr: nat): nat { vAddr / PAGE_SIZE % NUM_ENTRIES }
  function PageAddress(pdI: nat, ptI: nat): nat { BitOr(pdI * 0x40_0000, ptI * PAGE_SIZE) }

  lemma SplitAddress(vAddr: nat)
    requires vAddr < WORD
    ensures var d, t := vAddr / 0x40_0000, vAddr / 4096 % 1024;
      d < 1024 && vAddr / 4096 == d * 1024 + t
  {
    var p := vAddr / 4096;
    assert p / 1024 == vAddr / 0x40_0000;
  }

  /** The pair of table indices names a page, and every page has exactly one such pair. */
  lemma IndexBijection(vAddr: nat)
    requires vAddr < WORD
    ensures PdeIndex(vAddr) < NUM_ENTRIES && PteIndex(vAddr) < NUM_ENTRIES
    ensures vAddr / PAGE_SIZE == PdeIndex(vAddr) * NUM_ENTRIES + PteIndex(vAddr)
    ensures PageAddress(PdeIndex(vAddr), PteIndex(vAddr)) == vAddr / PAGE_SIZE * PAGE_SIZE
  {
    hide PageAddress;
    SplitAddress(vAddr);
    AddressOfIndices(PdeIndex(vAddr), PteIndex(vAddr));
  }

  lemma Pow2Of22()
    ensures Pow2(22) == 0x40_0000
  {
    assert Pow2(6) == 64;
    assert Pow2(12) == 4096;
    assert Pow2(18) == 262144;
  }

  lemma AddressOfIndices(d: nat, t: nat)
    requires d < NUM_ENTRIES && t < NUM_ENTRIES
    ensures PageAddress(d, t) == (d * NUM_ENTRIES + t) * PAGE_SIZE < WORD
    ensures PdeIndex(PageAddress(d, t)) == d && PteIndex(PageAddress(d, t)) == t
  {
    hide BitOr, Pow2;
    Pow2Of22();
    BitOrAligned(d, 0x40_0000, 22, t * PAGE_SIZE);
    assert PageAddress(d, t) == d * 0x40_0000 + t * 4096;
    var a := d * 0x40_0000 + t * 4096;
    assert a / 4096 == d * 1024 + t;
    assert a / 0x40_0000 == d;
  }

  // ---- Directories ---------------------------------------------------------

  /** A directory entry: its flag bits and, when present, the table it points to. */
  datatype Pde = Pde(flags: nat, ptes: seq<nat>)

  type Dir = seq<Pde>

  predicate PdePresent(e: Pde) { EntryPresent(e.flags) }

  ghost predicate DirOk(dir: Dir) {
    |dir| == NUM_ENTRIES && forall i :: 0 <= i < |dir| && PdePresent(dir[i]) ==> |dir[i].ptes| == NUM_ENTRIES
  }

  predicate HasTable(dir: Dir, p: nat)
    requires |dir| == NUM_ENTRIES && p < NUM_PAGES
  {
    PdePresent(dir[p / NUM_ENTRIES])
  }

  /** The entry word that translates page `p`; zero when there is none. */
  function Pte(dir: Dir, p: nat): nat
    requires DirOk(dir) && p < NUM_PAGES
  {
    if HasTable(dir, p) then dir[p / NUM_ENTRIES].ptes[p % NUM_ENTRIES] else 0
  }

  predicate Mapped(dir: Dir, p: nat)
    requires DirOk(dir) && p < NUM_PAGES
  {
    EntryPresent(Pte(dir, p))
  }

  /** What the hardware lets user code do with page `p`: both levels must allow it. */
  predicate UserReads(dir: Dir, p: nat)
    requires DirOk(dir) && p < NUM_PAGES
  {
    Mapped(dir, p) && UserMode(dir[p / NUM_ENTRIES].flags) && UserMode(Pte(dir, p))
  }

  predicate UserWrites(dir: Dir, p: nat)
    requires DirOk(dir) && p < NUM_PAGES
  {
    UserReads(dir, p) && Writable(dir[p / NUM_ENTRIES].flags) && Writable(Pte(dir, p))
  }

  function ZeroTable(): seq<nat> { seq(NUM_ENTRIES, _ => 0) }

  /** Installs an empty table for page `p` unless there is one. */
  function EnsureTable(dir: Dir, p: nat, pdeFlags: nat): (r: Dir)
    requires DirOk(dir) && p < NUM_PAGES && EntryPresent(pdeFlags)
    ensures DirOk(r) && HasTable(r, p)
  {
    if HasTable(dir, p) then dir else dir[p / NUM_ENTRIES := Pde(pdeFlags, ZeroTable())]
  }

  function Write(dir: Dir, p: nat, e: nat): (r: Dir)
    requires DirOk(dir) && p < NUM_PAGES && HasTable(dir, p)
    ensures DirOk(r)
  {
    var d := dir[p / NUM_ENTRIES];
    dir[p / NUM_ENTRIES := Pde(d.flags, d.ptes[p % NUM_ENTRIES := e])]
  }

  lemma EnsureTableView(dir: Dir, p: nat, pdeFlags: nat, q: nat)
    requires DirOk(dir) && p < NUM_PAGES && EntryPresent(pdeFlags) && q < NUM_PAGES
    ensures Pte(EnsureTable(dir, p, pdeFlags), q) == Pte(dir, q)
    ensures HasTable(dir, q) ==> HasTable(EnsureTable(dir, p, pdeFlags), q)
  {
  }

  lemma WriteView(dir: Dir, p: nat, e: nat, q: nat)
    requires DirOk(dir) && p < NUM_PAGES && HasTable(dir, p) && q < NUM_PAGES
    ensures Pte(Write(dir, p, e), q) == if q == p then e else Pte(dir, q)
    ensures HasTable(Write(dir, p, e), q) == HasTable(dir, q)
    ensures SameFlags(dir, Write(dir, p, e))
  {
  }

  // ---- Directory entries ---------------------------------------------------

  ghost predicate SameFlags(dir: Dir, dir': Dir) {
    |dir| == |dir'| == NUM_ENTRIES && forall i :: 0 <= i < NUM_ENTRIES ==> dir'[i].flags == dir[i].flags
  }

  /** Table `i` holds the entry of one of the `n` pages from `s` on; the first such page is `s + FirstIn(i, s)`. */
  predicate InTable(i: nat, s: nat, n: nat) { s < (i + 1) * NUM_ENTRIES && FirstIn(i, s) < n }

  function FirstIn(i: nat, s: nat): nat { if i * NUM_ENTRIES <= s then 0 else i * NUM_ENTRIES - s }

  /**
    Mapping the pages from `s` on has made exactly the tables they lacked, each with the flags
    asked for with its first page; every other directory entry has the flags it had.
  */
  ghost predicate TablesMade(dir: Dir, dir': Dir, s: nat, flags: seq<nat>) {
    |dir| == |dir'| == NUM_ENTRIES && forall i :: 0 <= i < NUM_ENTRIES ==> dir'[i].flags == MadeFlags(dir[i], i, s, flags)
  }

  function MadeFlags(e: Pde, i: nat, s: nat, flags: seq<nat>): nat {
    if !PdePresent(e) && InTable(i, s, |flags|) then flags[FirstIn(i, s)] else e.flags
  }

  lemma TablesMadeStep(dir: Dir, dir': Dir, s: nat, flags: seq<nat>, k: nat)
    requires DirOk(dir') && k < |flags| && s + k < NUM_PAGES && EntryPresent(flags[k]) && TablesMade(dir, dir', s, flags[..k])
    requires forall j :: 0 <= j < k ==> EntryPresent(flags[j])
    ensures TablesMade(dir, EnsureTable(dir', s + k, flags[k]), s, flags[..k + 1])
  {
    var r, d := EnsureTable(dir', s + k, flags[k]), (s + k) / NUM_ENTRIES;
    forall i | 0 <= i < NUM_ENTRIES ensures r[i].flags == MadeFlags(dir[i], i, s, flags[..k + 1]) {
      assert dir'[i].flags == MadeFlags(dir[i], i, s, flags[..k]);
      if InTable(i, s, k + 1) && !InTable(i, s, k) { assert i == d && FirstIn(i, s) == k; }
      if i == d { assert InTable(i, s, k + 1); }
    }
  }

  lemma {:induction false} CommitFlags(dir: Dir, tasks: seq<Task>)
    requires DirOk(dir) && TasksOk(dir, tasks)
    ensures SameFlags(dir, CommitAll(dir, tasks))
    decreases |tasks|
  {
    if tasks != [] {
      var p := tasks[0].vAddr / PAGE_SIZE;
      TasksStayOk(dir, tasks, p, tasks[0].pte);
      WriteView(dir, p, tasks[0].pte, p);
      CommitFlags(Write(dir, p, tasks[0].pte), tasks[1..]);
    }
  }

  // ---- The kernel's part ---------------------------------------------------

  /**
    What every directory says of the pages below user memory: page 0 is not mapped, and every
    other one is mapped to itself, for the kernel alone, to be kept across switches.
  */
  ghost predicate KernelMap(dir: Dir)
    requires DirOk(dir)
  {
    && (forall i :: 0 <= i < NUM_KERNEL_PDE ==> KernelTable(dir[i].flags))
    && (forall p: nat :: p < FIRST_USER_PAGE ==> KernelPage(Pte(dir, p), p))
  }

  predicate KernelTable(e: nat) { EntryPresent(e) && Writable(e) && !UserMode(e) }

  predicate KernelPage(e: nat, p: nat) {
    if p == 0 then e == 0 else KernelTable(e) && Global(e) && Phys(e) == p && !IsStart(e) && !IsEnd(e)
  }

  /** Both directories translate kernel pages alike. */
  ghost predicate SameKernel(dir: Dir, dir': Dir)
    requires DirOk(dir) && DirOk(dir')
  {
    && (forall i :: 0 <= i < NUM_KERNEL_PDE ==> dir'[i].flags == dir[i].flags)
    && (forall p: nat :: p < FIRST_USER_PAGE ==> Pte(dir', p) == Pte(dir, p))
  }

  /** Whatever happens above, the kernel's translation stays if its entries do. */
  lemma KernelStays(dir: Dir, dir': Dir)
    requires DirOk(dir) && DirOk(dir') && KernelMap(dir) && SameKernel(dir, dir')
    ensures KernelMap(dir')
  {
    hide Pte, KernelPage, KernelTable;
  }

  /** User code gets at no kernel page, and at no null pointer. */
  lemma KernelGuarded(dir: Dir, p: nat)
    requires DirOk(dir) && KernelMap(dir) && p < FIRST_USER_PAGE
    ensures !UserReads(dir, p) && !UserWrites(dir, p) && (Mapped(dir, p) <==> p != 0) && (p != 0 ==> Phys(Pte(dir, p)) == p)
  {
    hide Pte, IsStart, IsEnd, Phys, Writable, UserMode, Global;
    assert KernelPage(Pte(dir, p), p);
    var i := p / NUM_ENTRIES;
    assert i < NUM_KERNEL_PDE && KernelTable(dir[i].flags);
  }

  // ---- Mapping tasks -------------------------------------------------------

  /** `isNew`: a table was made for this task, which an abort frees. */
  datatype Task = Task(vAddr: nat, pte: nat, isNew: bool)

  /** The directory entries whose tables were made for pending tasks. */
  function MadeFor(tasks: seq<Task>): set<nat> { set i | 0 <= i < |tasks| && tasks[i].isNew :: PdeIndex(tasks[i].vAddr) }

  ghost predicate TasksOk(dir: Dir, tasks: seq<Task>)
    requires DirOk(dir)
  {
    forall i :: 0 <= i < |tasks| ==> tasks[i].vAddr < WORD && HasTable(dir, tasks[i].vAddr / PAGE_SIZE)
  }

  lemma TasksStayOk(dir: Dir, tasks: seq<Task>, p: nat, e: nat)
    requires DirOk(dir) && p < NUM_PAGES && HasTable(dir, p) && TasksOk(dir, tasks)
    ensures TasksOk(Write(dir, p, e), tasks)
  {
  }

  /** The directory after committing the tasks in order. */
  function CommitAll(dir: Dir, tasks: seq<Task>): (r: Dir)
    requires DirOk(dir) && TasksOk(dir, tasks)
    ensures DirOk(r)
    decreases |tasks|
  {
    if tasks == [] then dir
    else
      TasksStayOk(dir, tasks, tasks[0].vAddr / PAGE_SIZE, tasks[0].pte);
      CommitAll(Write(dir, tasks[0].vAddr / PAGE_SIZE, tasks[0].pte), tasks[1..])
  }

  lemma {:induction false} CommitTables(dir: Dir, tasks: seq<Task>, q: nat)
    requires DirOk(dir) && TasksOk(dir, tasks) && q < NUM_PAGES
    ensures HasTable(CommitAll(dir, tasks), q) == HasTable(dir, q)
    decreases |tasks|
  {
    if tasks != [] {
      var p := tasks[0].vAddr / PAGE_SIZE;
      WriteView(dir, p, tasks[0].pte, q);
      TasksStayOk(dir, tasks, p, tasks[0].pte);
      CommitTables(Write(dir, p, tasks[0].pte), tasks[1..], q);
    }
  }

  lemma {:induction false} CommitUntouched(dir: Dir, tasks: seq<Task>, q: nat)
    requires DirOk(dir) && TasksOk(dir, tasks) && q < NUM_PAGES
    requires forall i :: 0 <= i < |tasks| ==> tasks[i].vAddr / PAGE_SIZE != q
    ensures Pte(CommitAll(dir, tasks), q) == Pte(dir, q)
    decreases |tasks|
  {
    if tasks != [] {
      var p := tasks[0].vAddr / PAGE_SIZE;
      WriteView(dir, p, tasks[0].pte, q);
      TasksStayOk(dir, tasks, p, tasks[0].pte);
      CommitUntouched(Write(dir, p, tasks[0].pte), tasks[1..], q);
    }
  }

  lemma {:induction false} CommitSnoc(dir: Dir, tasks: seq<Task>, t: Task)
    requires DirOk(dir) && TasksOk(dir, tasks + [t])
    ensures TasksOk(dir, tasks) && t.vAddr < WORD && HasTable(CommitAll(dir, tasks), t.vAddr / PAGE_SIZE)
    ensures CommitAll(dir, tasks + [t]) == Write(CommitAll(dir, tasks), t.vAddr / PAGE_SIZE, t.pte)
    decreases |tasks|
  {
    var all := tasks + [t];
    assert all[|tasks|] == t && forall i :: 0 <= i < |tasks| ==> all[i] == tasks[i];
    CommitTables(dir, tasks, t.vAddr / PAGE_SIZE);
    if tasks == [] {
      assert all == [t] && all[1..] == [];
    } else {
      var p := tasks[0].vAddr / PAGE_SIZE;
      TasksStayOk(dir, all, p, tasks[0].pte);
      assert all[0] == tasks[0] && all[1..] == tasks[1..] + [t];
      CommitSnoc(Write(dir, p, tasks[0].pte), tasks[1..], t);
    }
  }

  /** Tasks for consecutive pages starting at `s`, one per page. */
  ghost predicate Consecutive(tasks: seq<Task>, s: nat) {
    forall k :: 0 <= k < |tasks| ==> tasks[k].vAddr / PAGE_SIZE == s + k
  }

  lemma {:induction false} CommitConsecutive(dir: Dir, tasks: seq<Task>, s: nat, q: nat)
    requires DirOk(dir) && TasksOk(dir, tasks) && Consecutive(tasks, s) && q < NUM_PAGES
    ensures Pte(CommitAll(dir, tasks), q) == if s <= q < s + |tasks| then tasks[q - s].pte else Pte(dir, q)
    decreases |tasks|
  {
    if tasks != [] {
      assert tasks[0].vAddr / PAGE_SIZE == s;
      WriteView(dir, s, tasks[0].pte, q);
      TasksStayOk(dir, tasks, s, tasks[0].pte);
      assert forall k :: 0 <= k < |tasks[1..]| ==> tasks[1..][k] == tasks[k + 1];
      if q == s {
        CommitUntouched(Write(dir, s, tasks[0].pte), tasks[1..], q);
      } else {
        CommitConsecutive(Write(dir, s, tasks[0].pte), tasks[1..], s + 1, q);
      }
    }
  }
}
