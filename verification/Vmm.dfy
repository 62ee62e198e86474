/**
  The virtual memory manager: it moves frames between the allocator and the page
  directories.  `pds` are all directories of the system; the invariant ties the allocator's
  forest to every directory at once, and every operation keeps it.
*/
module VirtualMemory {
  import opened Machine
  import opened Blocks
  import opened BuddyForest
  import opened FrameIndex
  import opened FrameAllocator
  import opened Paging
  import opened Batching
  import opened PageDirectories
  import opened Access
  import opened Spaces
  import opened Fork

  /** Flags of page `i` of an `n`-page region. */
  function NewFlags(i: nat, n: nat): nat {
    var f := if i == 0 then BitOr(START_BIT, USER_WR) else USER_WR;
    if i + 1 == n then BitOr(END_BIT, f) else f
  }

  lemma NewFlagsMarks(i: nat, n: nat)
    requires i < n
    ensures NewFlags(i, n) < PAGE_SIZE && Open(NewFlags(i, n))
    ensures IsStart(NewFlags(i, n)) <==> i == 0
    ensures IsEnd(NewFlags(i, n)) <==> i + 1 == n
  {
    hide BitOr, Pow2;
    assert Pow2(9) == 512 && Pow2(10) == 1024 by { Powers(); }
    BitOrAligned(1, 512, 9, 7);
    BitOrAligned(1, 1024, 10, 7);
    BitOrAligned(1, 1024, 10, 519);
  }

  lemma Powers()
    ensures Pow2(9) == 512 && Pow2(10) == 1024
  {
    assert Pow2(5) == 32;
  }

  /** The kernel's overflow test on 32-bit words. */
  predicate Overflows(base: nat, num: nat) { Wrap(base + Wrap(num * PAGE_SIZE) - 1) < base }

  /** The wrapping test rejects exactly the ranges that end beyond the address space. */
  lemma OverflowExact(base: nat, num: nat)
    requires base < WORD && 0 < num <= 0xFFFF
    ensures Overflows(base, num) <==> base + num * PAGE_SIZE > WORD
  {
    var x := base + num * PAGE_SIZE - 1;
    if x >= WORD { assert Wrap(x) == x - WORD; }
  }

  ghost predicate NoneMapped(dir: Dir, s: nat, n: nat)
    requires DirOk(dir)
  {
    forall q: nat :: s <= q < s + n && q < NUM_PAGES ==> !Mapped(dir, q)
  }

  /** A mapped region with START and END marks has been added. */
  lemma NewRegionAdded(dir: Dir, dir': Dir, s: nat, n: nat, a: nat)
    requires DirOk(dir) && DirOk(dir') && n > 0 && FIRST_USER_PAGE <= s && s + n <= NUM_PAGES && a % PAGE_SIZE == 0
    requires NoneMapped(dir, s, n)
    requires forall q: nat :: q < NUM_PAGES ==> Pte(dir', q) == PteAfterMap(dir, s, a, seq(n, i requires 0 <= i => NewFlags(i, n)), q)
    ensures Added(dir, dir', s, n, a) && Region(dir', s, n) && WellMarked(dir', s, n)
  {
    hide NewFlags, AddFlags, DirOk, Pte, IsStart, IsEnd;
    var flags := seq(n, i requires 0 <= i => NewFlags(i, n));
    forall q: nat | s <= q < s + n
      ensures UserMapped(dir', q) && !UserMapped(dir, q) && Phys(Pte(dir', q)) == a / PAGE_SIZE + (q - s)
      ensures (IsStart(Pte(dir', q)) <==> q == s) && (IsEnd(Pte(dir', q)) <==> q == s + n - 1)
    {
      var k := q - s;
      assert flags[k] == NewFlags(k, n);
      NewFlagsMarks(k, n);
      AddFlagsParts(a + k * PAGE_SIZE, flags[k]);
      assert (a + k * PAGE_SIZE) / PAGE_SIZE == a / PAGE_SIZE + k;
    }
  }

  /** The region is open to user code, and so are its new tables. */
  lemma RegionGranted(dir: Dir, dir': Dir, s: nat, n: nat, a: nat)
    requires DirOk(dir) && DirOk(dir') && a % PAGE_SIZE == 0
    requires forall q: nat :: q < NUM_PAGES ==> Pte(dir', q) == PteAfterMap(dir, s, a, seq(n, i requires 0 <= i => NewFlags(i, n)), q)
    requires TablesMade(dir, dir', s, seq(n, _ => USER_WR))
    ensures Granted(dir, dir', s, n)
  {
    hide NewFlags, AddFlags, DirOk, Pte, Writable, UserMode, IsStart, IsEnd;
    var flags := seq(n, i requires 0 <= i => NewFlags(i, n));
    forall q: nat | s <= q < s + n && q < NUM_PAGES ensures Open(Pte(dir', q)) {
      var k := q - s;
      assert flags[k] == NewFlags(k, n);
      NewFlagsMarks(k, n);
      AddFlagsParts(a + k * PAGE_SIZE, flags[k]);
      AddFlagsAccess(a + k * PAGE_SIZE, flags[k]);
    }
    assert Open(USER_WR) by { OpenFlags(); }
  }

  lemma OpenFlags()
    ensures Open(USER_WR)
  {
  }

  /** Pages without region marks have been added. */
  lemma SectionsAdded(dir: Dir, dir': Dir, s: nat, flags: seq<nat>, a: nat)
    requires DirOk(dir) && DirOk(dir') && |flags| > 0 && FIRST_USER_PAGE <= s && s + |flags| <= NUM_PAGES && a % PAGE_SIZE == 0
    requires NoneMapped(dir, s, |flags|)
    requires forall i :: 0 <= i < |flags| ==> flags[i] < PAGE_SIZE && EntryPresent(flags[i]) && !IsStart(flags[i])
    requires forall q: nat :: q < NUM_PAGES ==> Pte(dir', q) == PteAfterMap(dir, s, a, flags, q)
    ensures Added(dir, dir', s, |flags|, a) && WellMarked(dir', s, |flags|)
  {
    hide AddFlags, DirOk, Pte, IsStart, IsEnd, Region;
    forall q: nat | s <= q < s + |flags|
      ensures UserMapped(dir', q) && !UserMapped(dir, q) && Phys(Pte(dir', q)) == a / PAGE_SIZE + (q - s) && !IsStart(Pte(dir', q))
    {
      var k := q - s;
      AddFlagsParts(a + k * PAGE_SIZE, flags[k]);
      assert (a + k * PAGE_SIZE) / PAGE_SIZE == a / PAGE_SIZE + k;
    }
  }

  lemma SysLive(live: set<Block>, sps: Spaces)
    requires SysOk(live, sps)
    ensures LiveOk(live)
  {
  }

  lemma ClearStart(live: set<Block>, frames: seq<Meta>)
    ensures live == live - BlocksOf(live, frames[..0])
  {
  }

  /** The frame about to be returned is still allocated. */
  lemma ClearFinds(live: set<Block>, sps: Spaces, d: PageDirectory, before: set<Block>, i: nat)
    requires SysOk(live, sps) && d in sps && i < |sps[d].frames| && before == live - BlocksOf(live, sps[d].frames[..i])
    ensures exists b :: b in before && Addr(b) == sps[d].frames[i].addr
  {
    var fs := sps[d].frames;
    assert SpaceOk(sps[d]) && Backed(live, fs[i]);
    var b :| b in live && Backs(b, fs[i]);
    assert forall k :: 0 <= k < i ==> fs[..i][k] == fs[k];
    assert b in before;
  }

  lemma BlocksSnoc(live: set<Block>, fs: seq<Meta>, i: nat, c: Block)
    requires i < |fs|
    ensures c in BlocksOf(live, fs[..i + 1]) <==> c in BlocksOf(live, fs[..i]) || (c in live && Addr(c) == fs[i].addr)
  {
    hide Addr;
    var a, z := fs[..i], fs[..i + 1];
    assert z == a + [fs[i]] && z[i] == fs[i];
    if c in BlocksOf(live, a) {
      var k :| 0 <= k < |a| && a[k].addr == Addr(c);
      assert z[k] == a[k];
    }
    if c in BlocksOf(live, z) {
      var k :| 0 <= k < |z| && z[k].addr == Addr(c);
      if k < i { assert a[k] == z[k]; }
    }
  }

  lemma ClearStep(live: set<Block>, fs: seq<Meta>, before: set<Block>, i: nat, b: Block)
    requires LiveOk(live) && i < |fs| && before == live - BlocksOf(live, fs[..i])
    requires b in before && Addr(b) == fs[i].addr
    ensures before - {b} == live - BlocksOf(live, fs[..i + 1])
  {
    hide Addr, LiveOk, BlocksOf;
    forall c | c in live ensures c in BlocksOf(live, fs[..i + 1]) <==> c in BlocksOf(live, fs[..i]) || c == b {
      BlocksSnoc(live, fs, i, c);
      if Addr(c) == Addr(b) { AddrInjective(live, b, c); }
    }
  }

  lemma AddPagesOk(live: set<Block>, sps: Spaces, d: PageDirectory, sp': Space, s: nat, n: nat, b: Block)
    requires SysOk(live, sps) && d in sps && b !in live && LiveOk(live + {b}) && Backs(b, Meta(Addr(b), n))
    requires Added(sps[d].dir, sp'.dir, s, n, Addr(b)) && DirOk(sp'.dir) && WellMarked(sp'.dir, s, n)
    requires sp'.frames == [Meta(Addr(b), n)] + sps[d].frames
    ensures SysOk(live + {b}, sps[d := sp'])
  {
    assert SpaceOk(sps[d]);
    hide SysOk, SpaceOk, LiveOk, Added, WellMarked, Addr;
    var m := Meta(Addr(b), n);
    NewBlockApart(live, sps, b, m, d);
    AddSpaceOk(sps[d], sp'.dir, s, n, m);
    assert sp' == Space(sp'.dir, [m] + sps[d].frames);
    SysGrow(live, sps, d, sp', b, m);
  }

  lemma CopyNothing(mem: map<nat, Content>, dir: Dir, a: nat)
    requires DirOk(dir)
    ensures Rank(dir, FIRST_USER_PAGE) == 0 && MemCopied(mem, mem, dir, a, FIRST_USER_PAGE)
  {
  }

  lemma CopyUnmapped(dir: Dir, a: nat, q: nat)
    requires DirOk(dir) && q < NUM_PAGES && !Mapped(dir, q)
    ensures CopyPte(dir, a, q) == 0
  {
  }

  /** The frame of the copy is disjoint from every page of the source, and just large enough. */
  lemma ForkApart(live: set<Block>, sps: Spaces, d: PageDirectory, b: Block, m: Meta)
    requires SysOk(live, sps) && d in sps && b !in live && LiveOk(live + {b}) && Backs(b, m) && m.n == SumPages(sps[d].frames)
    ensures DirOk(sps[d].dir) && RegionsOk(sps[d].dir) && m.n == |MappedSet(sps[d].dir)| && SourceApart(sps[d].dir, m.addr, m.n)
  {
    assert SpaceOk(sps[d]);
    hide SysOk, LiveOk, Backs, MappedSet, FramesExclusive, RegionsOk, SumPages, Pte, DirOk;
    NewBlockApart(live, sps, b, m, d);
    var dir := sps[d].dir;
    forall q: nat | UserMapped(dir, q) ensures !InFrame(m, Phys(Pte(dir, q))) {
      assert OwnedBy(sps[d].frames, Phys(Pte(dir, q)));
    }
  }

  lemma ForkSysOk(live: set<Block>, sps: Spaces, d: PageDirectory, src: PageDirectory, sp': Space, b: Block)
    requires SysOk(live, sps) && d in sps && src in sps && d != src && b !in live && LiveOk(live + {b}) && sps[d].frames == []
    requires DirOk(sps[src].dir) && DirOk(sp'.dir) && IsFork(sps[src].dir, sp'.dir, Addr(b))
    requires Backs(b, Meta(Addr(b), |MappedSet(sps[src].dir)|)) && sp'.frames == [Meta(Addr(b), |MappedSet(sps[src].dir)|)]
    ensures SysOk(live + {b}, sps[d := sp']) <==> ForkSafe(sps[src].dir)
  {
    hide LiveOk, Backs, MappedSet, FramesExclusive, RegionsOk, SumPages, Pte, DirOk, IsFork, ForkSafe, Addr, AllBacked, AllListed, OneOwner;
    assert SpaceOk(sps[src]);
    var m := Meta(Addr(b), |MappedSet(sps[src].dir)|);
    ForkSpaceOk(sps[src].dir, sp'.dir, Addr(b));
    assert sp' == Space(sp'.dir, [m]) && [m] + sps[d].frames == [m];
    if ForkSafe(sps[src].dir) {
      SysGrow(live, sps, d, sp', b, m);
    }
    if SysOk(live + {b}, sps[d := sp']) {
      assert SpaceOk(sps[d := sp'][d]);
    }
  }

  /** Each mapped page of the fork reads as the source page did, and the source still reads the same. */
  ghost predicate SameContents(mem0: map<nat, Content>, mem: map<nat, Content>, src: Dir, dst: Dir)
    requires DirOk(src) && DirOk(dst)
  {
    forall q: nat :: UserMapped(src, q) ==>
      Load(mem, Phys(Pte(dst, q))) == Load(mem0, Phys(Pte(src, q))) == Load(mem, Phys(Pte(src, q)))
  }

  lemma ForkContents(mem0: map<nat, Content>, mem: map<nat, Content>, src: Dir, dst: Dir, a: nat)
    requires DirOk(src) && DirOk(dst) && IsFork(src, dst, a) && MemCopied(mem0, mem, src, a, NUM_PAGES)
    requires SourceApart(src, a, |MappedSet(src)|)
    ensures SameContents(mem0, mem, src, dst)
  {
    hide Pte, DirOk, Rank, MappedSet, IsFork;
    RankTotal(src);
    forall q: nat | UserMapped(src, q)
      ensures Load(mem, Phys(Pte(dst, q))) == Load(mem0, Phys(Pte(src, q))) == Load(mem, Phys(Pte(src, q)))
    {
      ForkTranslation(src, dst, a, q);
    }
  }

  /** A `new_pages` region at the lowest mapped page, if there is one, is all that is mapped. */
  predicate LowestIsAll(dir: Dir)
    requires DirOk(dir)
  {
    forall p: nat :: FIRST_USER_PAGE <= p < NUM_PAGES && Mapped(dir, p) && Rank(dir, p) == 0 && IsStart(Pte(dir, p)) ==> Region(dir, p, |MappedSet(dir)|)
  }

  /** That is what fork-safety comes to in a space whose regions are in order. */
  lemma SafeByLowest(dir: Dir)
    requires DirOk(dir) && RegionsOk(dir)
    ensures ForkSafe(dir) <==> LowestIsAll(dir)
  {
    hide DirOk, Pte, Rank, MappedSet;
    if ForkSafe(dir) {
      forall p: nat | FIRST_USER_PAGE <= p < NUM_PAGES && Mapped(dir, p) && Rank(dir, p) == 0 && IsStart(Pte(dir, p)) ensures Region(dir, p, |MappedSet(dir)|) {
        assert Starts(dir, p) && HasRegion(dir, p);
        var n: nat :| Region(dir, p, n);
      }
    }
    if LowestIsAll(dir) {
      forall s: nat, n: nat | Region(dir, s, n) && Rank(dir, s) == 0 ensures n == |MappedSet(dir)| {
        RegionStart(dir, s, n);
        RegionUnique(dir, s, n, |MappedSet(dir)|);
      }
    }
  }

  /** In particular a space whose lowest page does not start a region is fork-safe. */
  lemma PlainIsSafe(dir: Dir)
    requires DirOk(dir) && forall p: nat :: UserMapped(dir, p) && Rank(dir, p) == 0 ==> !IsStart(Pte(dir, p))
    ensures ForkSafe(dir)
  {
    forall s: nat, n: nat | Region(dir, s, n) ensures Rank(dir, s) != 0 {
      RegionStart(dir, s, n);
    }
  }

  /** An aligned, wholly free range of the order that `num` pages need. */
  ghost predicate Room(numBins: nat, roots: set<Block>, S: Forest, num: nat) {
    && numBins >= 1 && 0 < num <= Pow2(numBins - 1)
    && exists a: Block :: a.i == OrderFor(num) && WhollyFree(roots, S, a)
  }

  /** The block at address `a`, for `num` pages, is cut from the left of a best fit. */
  ghost predicate Taken(S: Forest, num: nat, a: nat, T: Forest) {
    num > 0 && exists c :: Cut(S, OrderFor(num), c, a, T)
  }

  function ZeroPages(mem: map<nat, Content>, f: nat, n: nat): map<nat, Content> {
    mem + map p | p in Range(f, n) :: seq(PAGE_SIZE, _ => 0)
  }

  /** The pages `s .. s+n` read zero, and only the physical pages behind them have changed. */
  ghost predicate ReadsZero(mem: map<nat, Content>, mem': map<nat, Content>, dir: Dir, s: nat, n: nat)
    requires DirOk(dir)
  {
    && (forall q: nat :: s <= q < s + n && q < NUM_PAGES ==> Load(mem', Phys(Pte(dir, q))) == seq(PAGE_SIZE, _ => 0))
    && (forall f: nat :: Behind(dir, s, n, f) || Load(mem', f) == Load(mem, f))
  }

  /** Physical page `f` is what one of the pages `s .. s+n` is mapped to. */
  ghost predicate Behind(dir: Dir, s: nat, n: nat, f: nat)
    requires DirOk(dir)
  {
    exists q: nat :: s <= q < s + n && q < NUM_PAGES && Phys(Pte(dir, q)) == f
  }

  lemma AddedReadsZero(mem: map<nat, Content>, dir: Dir, dir': Dir, s: nat, n: nat, a: nat)
    requires Added(dir, dir', s, n, a)
    ensures DirOk(dir') && ReadsZero(mem, ZeroPages(mem, a / PAGE_SIZE, n), dir', s, n)
  {
    hide Pte, Phys, DirOk;
    forall f: nat | a / PAGE_SIZE <= f < a / PAGE_SIZE + n ensures Behind(dir', s, n, f) {
      var q := s + (f - a / PAGE_SIZE);
      assert Phys(Pte(dir', q)) == a / PAGE_SIZE + (q - s);
    }
  }

  /** Physical pages from `f` on with their first `k` bytes set to zero. */
  function ZeroBytes(mem: map<nat, Content>, f: nat, k: nat): map<nat, Content> {
    var full, g, rest := ZeroPages(mem, f, k / PAGE_SIZE), f + k / PAGE_SIZE, k % PAGE_SIZE;
    if rest == 0 then full else full[g := Cleared(Load(mem, g), rest)]
  }

  /** A page with its first `k` bytes set to zero. */
  function Cleared(c: Content, k: nat): Content { seq(k, _ => 0) + if |c| > k then c[k..] else [] }

  /**
    The loader clears a quarter of what it maps: of `n` pages the first `n / 4` read zero, the
    next one at most in part, and every later one as its previous owner left it.
  */
  lemma LoaderClearsQuarter(mem: map<nat, Content>, f: nat, n: nat, i: nat)
    ensures var mem' := ZeroBytes(mem, f, n * PAGE_SIZE / 4);
      && (4 * (i + 1) <= n ==> Load(mem', f + i) == seq(PAGE_SIZE, _ => 0))
      && (n <= 4 * i ==> Load(mem', f + i) == Load(mem, f + i))
      && (4 * i < n < 4 * (i + 1) ==> HeadCleared(Load(mem, f + i), Load(mem', f + i), n % 4 * 1024))
  {
    hide Cleared, HeadCleared;
    QuarterPages(n);
    ClearsHead(Load(mem, f + i), n % 4 * 1024);
  }

  /** The first `k` bytes of `c'` are zero and the others are those of `c`. */
  ghost predicate HeadCleared(c: Content, c': Content, k: nat) {
    |c'| == (if |c| > k then |c| else k) && forall j :: 0 <= j < |c'| ==> c'[j] == if j < k then 0 else c[j]
  }

  lemma ClearsHead(c: Content, k: nat)
    ensures HeadCleared(c, Cleared(c, k), k)
  {
  }

  lemma QuarterPages(n: nat)
    ensures n * PAGE_SIZE / 4 / PAGE_SIZE == n / 4 && n * PAGE_SIZE / 4 % PAGE_SIZE == n % 4 * 1024
  {
    assert n * 4096 / 4 == n * 1024;
    assert n * 1024 == (n / 4) * 4096 + n % 4 * 1024;
  }

  lemma AddedBase(dir: Dir, dir': Dir, s: nat, n: nat, a: nat)
    requires Added(dir, dir', s, n, a)
    ensures s < NUM_PAGES && DirOk(dir') && Phys(Pte(dir', s)) == a / PAGE_SIZE
  {
    hide Pte, DirOk;
    assert Phys(Pte(dir', s)) == a / PAGE_SIZE + (s - s);
  }

  /** Dropping what was added leaves every page mapped, and mapped where, as before. */
  lemma AddedThenDropped(dir: Dir, dir1: Dir, dir2: Dir, s: nat, n: nat, a: nat)
    requires Added(dir, dir1, s, n, a) && Dropped(dir1, dir2, s, n)
    ensures forall q: nat :: User(q) ==> Mapped(dir2, q) == Mapped(dir, q)
    ensures forall q: nat :: UserMapped(dir, q) ==> Pte(dir2, q) == Pte(dir, q)
  {
    hide Pte, DirOk;
    forall q: nat | User(q)
      ensures Mapped(dir2, q) == Mapped(dir, q) && (UserMapped(dir, q) ==> Pte(dir2, q) == Pte(dir, q))
    {
      if s <= q < s + n { assert !UserMapped(dir, q) && Pte(dir2, q) == 0; }
    }
  }

  /** And with it user code can do what it could. */
  lemma AccessBack(dir: Dir, dir1: Dir, dir2: Dir, s: nat, n: nat, a: nat, q: nat)
    requires Added(dir, dir1, s, n, a) && Dropped(dir1, dir2, s, n) && UserMapped(dir, q)
    requires Granted(dir, dir1, s, n) && SameFlags(dir1, dir2)
    ensures UserReads(dir2, q) == UserReads(dir, q) && UserWrites(dir2, q) == UserWrites(dir, q)
  {
    hide Pte, DirOk, Granted, SameFlags, UserReads, UserWrites;
    AddedThenDropped(dir, dir1, dir2, s, n, a);
    assert Pte(dir1, q) == Pte(dir, q) && Pte(dir2, q) == Pte(dir1, q);
    OldPageAccess(dir, dir1, s, n, q);
    SameFlagsAccess(dir1, dir2, q);
  }

  lemma StartHasRegion(live: set<Block>, sps: Spaces, d: PageDirectory, s: nat) returns (n: nat)
    requires SysOk(live, sps) && d in sps && DirOk(sps[d].dir) && Starts(sps[d].dir, s)
    ensures Region(sps[d].dir, s, n)
  {
    assert SpaceOk(sps[d]);
    assert HasRegion(sps[d].dir, s);
    n :| Region(sps[d].dir, s, n);
  }

  lemma BackedFrame(live: set<Block>, sps: Spaces, d: PageDirectory, k: nat)
    requires SysOk(live, sps) && d in sps && k < |sps[d].frames|
    ensures exists b :: b in live && Addr(b) == sps[d].frames[k].addr
  {
    assert Backed(live, sps[d].frames[k]);
  }

  lemma CommitDrops(dir: Dir, tasks: seq<Task>, s: nat)
    requires DirOk(dir) && TasksOk(dir, tasks) && Consecutive(tasks, s) && forall k :: 0 <= k < |tasks| ==> tasks[k].pte == 0
    ensures Dropped(dir, CommitAll(dir, tasks), s, |tasks|) && SameFlags(dir, CommitAll(dir, tasks))
    ensures FIRST_USER_PAGE <= s && KernelMap(dir) ==> KernelMap(CommitAll(dir, tasks))
  {
    hide Pte, CommitAll, KernelMap;
    CommitFlags(dir, tasks);
    forall q: nat | q < FIRST_USER_PAGE && q < s ensures Pte(CommitAll(dir, tasks), q) == Pte(dir, q) {
      CommitConsecutive(dir, tasks, s, q);
    }
    if FIRST_USER_PAGE <= s && KernelMap(dir) { KernelStays(dir, CommitAll(dir, tasks)); }
    forall q: nat | User(q) ensures Pte(CommitAll(dir, tasks), q) == if s <= q < s + |tasks| then 0 else Pte(dir, q) {
      CommitConsecutive(dir, tasks, s, q);
    }
  }

  lemma RemovePagesOk(live: set<Block>, sps: Spaces, d: PageDirectory, sp': Space, s: nat, n: nat, b: Block, k: nat)
    requires SysOk(live, sps) && d in sps && b in live && k < |sps[d].frames| && DirOk(sps[d].dir)
    requires Region(sps[d].dir, s, n) && Dropped(sps[d].dir, sp'.dir, s, n) && s < NUM_PAGES
    requires Addr(b) == sps[d].frames[k].addr == RemoveFlags(Pte(sps[d].dir, s)) && sp'.frames == Without(sps[d].frames, k)
    ensures SysOk(live - {b}, sps[d := sp'])
  {
    assert SpaceOk(sps[d]);
    hide SysOk, SpaceOk, Region, Dropped, Addr;
    DropSpaceOk(sps[d], sp'.dir, s, n, k);
    assert sp' == Space(sp'.dir, Without(sps[d].frames, k));
    SysShrink(live, sps, d, sp', b, k);
  }

  lemma PageBase(e: nat, b: Block)
    requires Phys(e) == Addr(b) / PAGE_SIZE
    ensures RemoveFlags(e) == Addr(b)
  {
  }

  class Vmm {
    const fm: FrameManager
    var mem: map<nat, Content>
    ghost var pds: set<PageDirectory>

    ghost function Sps(): Spaces
      reads this`pds, pds
    {
      map d | d in pds :: Space(d.dir, d.frames)
    }

    ghost predicate AllQuiet()
      reads this`pds, pds
    {
      forall d :: d in pds ==> d.Quiet() && KernelMap(d.dir)
    }

    /** Only `pd` has changed among the directories. */
    twostate lemma OnlyChanged(pd: PageDirectory)
      requires pds == old(pds) && pd in pds && old(AllQuiet()) && pd.Quiet() && KernelMap(pd.dir)
      requires forall d :: d in pds && d != pd ==> unchanged(d)
      ensures AllQuiet() && Sps() == old(Sps())[pd := Space(pd.dir, pd.frames)]
    {
    }

    ghost predicate Valid()
      reads this`pds, fm, fm.Repr, pds
    {
      fm.Valid() && AllQuiet() && SysOk(Live(fm.S), Sps())
    }

    constructor (fm: FrameManager)
      requires fm.Valid() && Live(fm.S) == {}
      ensures Valid() && this.fm == fm && pds == {}
    {
      this.fm, mem, pds := fm, map[], {};
    }

    /** Whether any of the `num` pages from `base` on is mapped. */
    method AnyMapped(pd: PageDirectory, base: nat, num: nat) returns (found: bool)
      requires pd.Valid() && base + num * PAGE_SIZE <= WORD && num > 0
      ensures found <==> !NoneMapped(pd.dir, base / PAGE_SIZE, num)
    {
      var vAddr := base;
      for i := 0 to num
        invariant vAddr == Wrap(base + i * PAGE_SIZE)
        invariant NoneMapped(pd.dir, base / PAGE_SIZE, i)
      {
        var code, pte := pd.GetMapping(vAddr);
        if code == 0 { return true; }
        vAddr := Wrap(vAddr + PAGE_SIZE);
      }
      return false;
    }

    /** The conditions under which `new_pages` succeeds. */
    ghost predicate CanMap(pd: PageDirectory, base: nat, num: nat)
      requires pd.Valid()
      reads pd, fm
    {
      && 0 < num <= 0xFFFF && base % PAGE_SIZE == 0 && base + num * PAGE_SIZE <= WORD
      && NoneMapped(pd.dir, base / PAGE_SIZE, num)
      && Room(fm.numBins, fm.roots, fm.S, num)
    }

    /** Nothing a caller could observe has changed. */
    twostate predicate SameSystem(pd: PageDirectory)
      reads this, pd, fm
    {
      && pd.dir == old(pd.dir) && pd.frames == old(pd.frames) && pd.numPages == old(pd.numPages)
      && fm.S == old(fm.S) && mem == old(mem)
    }

    /** Charges `num` pages to the directory, or changes nothing. */
    method Charge(pd: PageDirectory, num: nat) returns (ok: bool, pAddr: nat, ghost b: Block)
      requires Valid() && pd in pds
      modifies pd`frames, pd`numPages, fm, fm.Repr
      ensures fm.Valid() && pd.Quiet() && fm.roots == old(fm.roots) && fm.numBins == old(fm.numBins)
      ensures fresh(fm.Repr - old(fm.Repr))
      ensures ok <==> Room(fm.numBins, fm.roots, old(fm.S), num)
      ensures !ok ==> fm.S == old(fm.S) && pd.frames == old(pd.frames) && pd.numPages == old(pd.numPages)
      ensures ok ==> pAddr == Addr(b) && pd.frames == [Meta(pAddr, num)] + old(pd.frames)
      ensures ok ==> Backs(b, Meta(pAddr, num)) && b !in Live(old(fm.S)) && Live(fm.S) == Live(old(fm.S)) + {b} && LiveOk(Live(fm.S))
      ensures ok ==> Join(fm.numBins, fm.roots, fm.S, b) == old(fm.S) && Taken(old(fm.S), num, pAddr, fm.S)
    {
      hide FrameManager.Valid, SysOk, Addr, Live, Carve, BestFit;
      var r;
      ghost var c;
      fm.ValidFacts();
      r, pAddr, b, c := fm.AllocPages(num);
      if r < 0 { return false, pAddr, b; }
      fm.ValidFacts();
      LiveBlocksOk(fm.numBins, fm.roots, fm.S);
      FreeUndoesAlloc(fm.numBins, fm.roots, old(fm.S), c, b.i);
      OrderUnique(num, b.i);
      assert Cut(old(fm.S), OrderFor(num), c, pAddr, fm.S);
      pd.AllocFrame(pAddr, num);
      return true, pAddr, b;
    }

    /** Takes back the frame charged last. */
    method Refund(pd: PageDirectory, pAddr: nat, num: nat, ghost b: Block, ghost fs: seq<Meta>)
      requires fm.Valid() && pd.Quiet() && pd.frames == [Meta(pAddr, num)] + fs
      requires b in Live(fm.S) && Addr(b) == pAddr && LiveOk(Live(fm.S))
      modifies pd`frames, pd`numPages, fm, fm.Repr
      ensures fm.Valid() && pd.Quiet() && fm.roots == old(fm.roots) && fm.numBins == old(fm.numBins) && fm.Repr == old(fm.Repr)
      ensures pd.frames == fs && fm.S == Join(old(fm.numBins), old(fm.roots), old(fm.S), b)
    {
      hide FrameManager.Valid, LiveOk, Addr, Live;
      var code, size := pd.DeallocFrame(pAddr);
      assert Without([Meta(pAddr, num)] + fs, 0) == fs;
      ghost var b';
      code, b' := fm.DeallocPages(pAddr);
      AddrInjective(Live(old(fm.S)), b, b');
    }

    /** Charges, maps and zeroes `num` pages, or undoes everything. */
    method Install(pd: PageDirectory, base: nat, num: nat) returns (r: int, ghost b: Block)
      requires Valid() && pd in pds && USER_MEM_START <= base && num > 0 && base + num * PAGE_SIZE <= WORD
      requires NoneMapped(pd.dir, base / PAGE_SIZE, num)
      modifies this`mem, pd, fm, fm.Repr
      ensures Valid() && fresh(fm.Repr - old(fm.Repr)) && fm.roots == old(fm.roots) && fm.numBins == old(fm.numBins)
      ensures r == 0 || r == -2 || r == -4
      ensures r == -2 <==> !Room(fm.numBins, fm.roots, old(fm.S), num)
      ensures r == -4 ==> base % PAGE_SIZE != 0
      ensures r == 0 ==> base % PAGE_SIZE == 0
      ensures r < 0 ==> SameSystem(pd)
      ensures r == 0 ==> Added(old(pd.dir), pd.dir, base / PAGE_SIZE, num, Addr(b)) && Region(pd.dir, base / PAGE_SIZE, num)
      ensures r == 0 ==> DirOk(old(pd.dir)) && Granted(old(pd.dir), pd.dir, base / PAGE_SIZE, num)
      ensures r == 0 ==> pd.frames == [Meta(Addr(b), num)] + old(pd.frames)
      ensures r == 0 ==> b !in Live(old(fm.S)) && Live(fm.S) == Live(old(fm.S)) + {b}
      ensures r == 0 ==> mem == ZeroPages(old(mem), Addr(b) / PAGE_SIZE, num)
      ensures r == 0 ==> Join(fm.numBins, fm.roots, fm.S, b) == old(fm.S) && Taken(old(fm.S), num, Addr(b), fm.S)
    {
      hide FrameManager.Valid, SysOk, Region, Added, Granted, NoneMapped, Live, Addr, Room, Taken, Join, ZeroPages, DirOk;
      var pAddr;
      r, pAddr, b := MapRegion(pd, base, num);
      if r == 0 { ZeroFrame(pAddr, num); }
    }

    /** Clears whole pages. */
    method ZeroFrame(pAddr: nat, num: nat)
      modifies this`mem
      ensures mem == ZeroPages(old(mem), pAddr / PAGE_SIZE, num)
    {
      mem := ZeroPages(mem, pAddr / PAGE_SIZE, num);
    }

    /** Everything of it but the contents of memory. */
    method MapRegion(pd: PageDirectory, base: nat, num: nat) returns (r: int, pAddr: nat, ghost b: Block)
      requires Valid() && pd in pds && USER_MEM_START <= base && num > 0 && base + num * PAGE_SIZE <= WORD
      requires NoneMapped(pd.dir, base / PAGE_SIZE, num)
      modifies pd, fm, fm.Repr
      ensures Valid() && fresh(fm.Repr - old(fm.Repr)) && fm.roots == old(fm.roots) && fm.numBins == old(fm.numBins)
      ensures r == 0 || r == -2 || r == -4
      ensures r == -2 <==> !Room(fm.numBins, fm.roots, old(fm.S), num)
      ensures r == -4 ==> base % PAGE_SIZE != 0
      ensures r == 0 ==> base % PAGE_SIZE == 0
      ensures r < 0 ==> SameSystem(pd)
      ensures r == 0 ==> Added(old(pd.dir), pd.dir, base / PAGE_SIZE, num, Addr(b)) && Region(pd.dir, base / PAGE_SIZE, num)
      ensures r == 0 ==> DirOk(old(pd.dir)) && Granted(old(pd.dir), pd.dir, base / PAGE_SIZE, num)
      ensures r == 0 ==> pd.frames == [Meta(Addr(b), num)] + old(pd.frames)
      ensures r == 0 ==> b !in Live(old(fm.S)) && Live(fm.S) == Live(old(fm.S)) + {b}
      ensures r == 0 ==> pAddr == Addr(b)
      ensures r == 0 ==> Join(fm.numBins, fm.roots, fm.S, b) == old(fm.S) && Taken(old(fm.S), num, Addr(b), fm.S)
    {
      hide FrameManager.Valid, SysOk, Region, Added, Granted, KernelMap, TablesMade, NoneMapped, AddFlags, Live, LiveOk, DirOk, Pte, NewFlags, Addr, Room, Taken, Join, Backs, SumPages;
      var ok;
      ghost var sps := Sps();
      assert pd in sps && sps[pd] == Space(pd.dir, pd.frames) && sps[pd := sps[pd]] == sps;
      hide AllQuiet, Sps;
      ok, pAddr, b := Charge(pd, num);
      if !ok { OnlyChanged(pd); return -2, pAddr, b; }
      var flags := seq(num, i requires 0 <= i => NewFlags(i, num));
      NewBlockApart(Live(old(fm.S)), sps, b, Meta(pAddr, num), pd);
      var code := pd.MapPages(base, pAddr, flags, seq(num, _ => USER_WR));
      if code < 0 {
        Refund(pd, pAddr, num, b, old(pd.frames));
        OnlyChanged(pd);
        return -4, pAddr, b;
      }
      NewRegionAdded(old(pd.dir), pd.dir, base / PAGE_SIZE, num, pAddr);
      RegionGranted(old(pd.dir), pd.dir, base / PAGE_SIZE, num, pAddr);
      MapKeepsKernel(old(pd.dir), pd.dir, base / PAGE_SIZE, pAddr, flags, seq(num, _ => USER_WR));
      AddPagesOk(Live(old(fm.S)), sps, pd, Space(pd.dir, pd.frames), base / PAGE_SIZE, num, b);
      OnlyChanged(pd);
      return 0, pAddr, b;
    }

    /** The `new_pages` system call behind its argument checks. */
    method NewUserPage(pd: PageDirectory, base: nat, num: nat) returns (r: int, ghost b: Block)
      requires Valid() && pd in pds && USER_MEM_START <= base < WORD
      modifies this`mem, pd, fm, fm.Repr
      ensures Valid() && pds == old(pds) && fresh(fm.Repr - old(fm.Repr)) && fm.roots == old(fm.roots) && fm.numBins == old(fm.numBins)
      ensures r == 0 <==> old(CanMap(pd, base, num))
      ensures -4 <= r <= 0 && (r == -1 <==> num == 0 || num > 0xFFFF)
      ensures r == -3 <==> r != -1 && base + num * PAGE_SIZE <= WORD && !NoneMapped(old(pd.dir), base / PAGE_SIZE, num)
      ensures r == -4 ==> base % PAGE_SIZE != 0
      ensures r < 0 ==> SameSystem(pd)
      ensures r == 0 ==> Added(old(pd.dir), pd.dir, base / PAGE_SIZE, num, Addr(b)) && Region(pd.dir, base / PAGE_SIZE, num)
      ensures r == 0 ==> DirOk(old(pd.dir)) && Granted(old(pd.dir), pd.dir, base / PAGE_SIZE, num)
      ensures r == 0 ==> pd.frames == [Meta(Addr(b), num)] + old(pd.frames)
      ensures r == 0 ==> b !in Live(old(fm.S)) && Live(fm.S) == Live(old(fm.S)) + {b}
      ensures r == 0 ==> mem == ZeroPages(old(mem), Addr(b) / PAGE_SIZE, num)
      ensures r == 0 ==> DirOk(pd.dir) && ReadsZero(old(mem), mem, pd.dir, base / PAGE_SIZE, num)
      ensures r == 0 ==> Join(fm.numBins, fm.roots, fm.S, b) == old(fm.S) && Taken(old(fm.S), num, Addr(b), fm.S)
    {
      hide FrameManager.Valid, SysOk, Region, Added, Granted, NoneMapped, Live, DirOk, Addr, Room, Taken, Join, ZeroPages, Overflows, ReadsZero;
      fm.ValidFacts();
      b := Block(0, 0);
      if num == 0 || num > 0xFFFF { return -1, b; }
      OverflowExact(base, num);
      if Overflows(base, num) { return -2, b; }
      var overlap := AnyMapped(pd, base, num);
      if overlap { return -3, b; }
      r, b := Install(pd, base, num);
      if r == 0 { AddedReadsZero(old(mem), old(pd.dir), pd.dir, base / PAGE_SIZE, num, Addr(b)); }
    }

    /** Queues the removal of every page of the region at `base`; nothing is unmapped yet. */
    method QueueRemoval(pd: PageDirectory, base: nat, ghost n: nat)
      requires pd.Quiet() && base % PAGE_SIZE == 0 && Region(pd.dir, base / PAGE_SIZE, n)
      modifies pd`tasks, pd`batch, pd`dir
      ensures pd.Valid() && pd.dir == old(pd.dir) && |pd.tasks| == n && Consecutive(pd.tasks, base / PAGE_SIZE)
      ensures forall k :: 0 <= k < n ==> pd.tasks[k].pte == 0 && !pd.tasks[k].isNew
    {
      hide DirOk, Pte;
      ghost var s := base / PAGE_SIZE;
      var begun := pd.BeginMapping();
      var vAddr, done := base, false;
      ghost var i := 0;
      while !done
        invariant pd.Valid() && pd.batch && pd.dir == old(pd.dir) && 0 <= i <= n && (done <==> i == n)
        invariant |pd.tasks| == i && Consecutive(pd.tasks, s) && forall k :: 0 <= k < i ==> pd.tasks[k].pte == 0 && !pd.tasks[k].isNew
        invariant vAddr == Wrap(base + i * PAGE_SIZE)
        decreases n - i
      {
        if Wrap(vAddr - PAGE_SIZE) > vAddr { assert false; }
        assert vAddr / PAGE_SIZE == s + i && UserMapped(pd.dir, s + i);
        var got, pte := pd.GetMapping(vAddr);
        var code := pd.RemoveMapping(vAddr);
        if code < 0 { assert false; }
        vAddr, i := Wrap(vAddr + PAGE_SIZE), i + 1;
        done := IsEnd(pte);
      }
    }

    /** Unmaps a region and gives its frame back, if the frame is based where the region starts. */
    method DropRegion(pd: PageDirectory, base: nat, pBase: nat, ghost n: nat) returns (r: int, ghost b: Block)
      requires Valid() && pd in pds && base % PAGE_SIZE == 0 && FIRST_USER_PAGE <= base / PAGE_SIZE < NUM_PAGES
      requires Region(pd.dir, base / PAGE_SIZE, n) && pBase == RemoveFlags(Pte(pd.dir, base / PAGE_SIZE))
      modifies pd, fm, fm.Repr
      ensures Valid() && fm.Repr == old(fm.Repr) && fm.roots == old(fm.roots) && fm.numBins == old(fm.numBins)
      ensures r == (if FindFrame(old(pd.frames), pBase) < |old(pd.frames)| then 0 else -5)
      ensures r < 0 ==> pd.dir == old(pd.dir) && pd.frames == old(pd.frames) && pd.numPages == old(pd.numPages) && fm.S == old(fm.S)
      ensures r == 0 ==> SameFlags(old(pd.dir), pd.dir)
      ensures r == 0 ==> Dropped(old(pd.dir), pd.dir, base / PAGE_SIZE, n) && b in Live(old(fm.S)) && Addr(b) == pBase
      ensures r == 0 ==> fm.S == Join(fm.numBins, fm.roots, old(fm.S), b) && Live(fm.S) == Live(old(fm.S)) - {b}
      ensures r == 0 ==> pd.frames == Without(old(pd.frames), FindFrame(old(pd.frames), pBase))
    {
      hide FrameManager.Valid, SysOk, Region, Dropped, KernelMap, SameFlags, Live, LiveOk, Addr, Join, SumPages, SpaceOk, CommitAll, DirOk, Pte, IsStart, Without;
      b := Block(0, 0);
      ghost var sps, s := Sps(), base / PAGE_SIZE;
      assert pd in sps && sps[pd] == Space(pd.dir, pd.frames) && sps[pd := sps[pd]] == sps;
      hide AllQuiet, Sps;
      QueueRemoval(pd, base, n);
      var code, size := pd.DeallocFrame(pBase);
      if code < 0 {
        var freed := pd.AbortMapping();
        if freed != {} { assert false; }
        OnlyChanged(pd);
        return -5, b;
      }
      ghost var k := FindFrame(old(pd.frames), pBase);
      BackedFrame(Live(fm.S), sps, pd, k);
      code, b := fm.DeallocPages(pBase);
      if code < 0 { assert false; }
      CommitDrops(pd.dir, pd.tasks, s);
      pd.CommitMapping();
      RemovePagesOk(Live(old(fm.S)), sps, pd, Space(pd.dir, pd.frames), s, n, b, k);
      OnlyChanged(pd);
      return 0, b;
    }

    /** The `remove_pages` system call. */
    method RemoveUserPage(pd: PageDirectory, base: nat) returns (r: int, ghost n: nat, ghost b: Block)
      requires Valid() && pd in pds && base < WORD
      modifies pd, fm, fm.Repr
      ensures Valid() && pds == old(pds) && fm.Repr == old(fm.Repr) && fm.roots == old(fm.roots) && fm.numBins == old(fm.numBins)
      ensures r == 0 || r == -1 || r == -2 || r == -3 || r == -5
      ensures r == -1 <==> base < USER_MEM_START || base % PAGE_SIZE != 0
      ensures r == -2 <==> r != -1 && !Mapped(old(pd.dir), base / PAGE_SIZE)
      ensures r == 0 || r == -5 <==> r != -1 && Starts(old(pd.dir), base / PAGE_SIZE)
      ensures r == 0 ==> OwnsAddr(old(Space(pd.dir, pd.frames)), RemoveFlags(Pte(old(pd.dir), base / PAGE_SIZE)))
      ensures r == -5 ==> !OwnsAddr(old(Space(pd.dir, pd.frames)), RemoveFlags(Pte(old(pd.dir), base / PAGE_SIZE)))
      ensures r < 0 ==> pd.dir == old(pd.dir) && pd.frames == old(pd.frames) && pd.numPages == old(pd.numPages) && fm.S == old(fm.S)
      ensures r == 0 ==> Region(old(pd.dir), base / PAGE_SIZE, n) && Dropped(old(pd.dir), pd.dir, base / PAGE_SIZE, n)
      ensures r == 0 ==> SameFlags(old(pd.dir), pd.dir)
      ensures r == 0 ==> b in Live(old(fm.S)) && Addr(b) == RemoveFlags(Pte(old(pd.dir), base / PAGE_SIZE))
      ensures r == 0 ==> fm.S == Join(fm.numBins, fm.roots, old(fm.S), b) && Live(fm.S) == Live(old(fm.S)) - {b}
      ensures r == 0 ==> var k := FindFrame(old(pd.frames), Addr(b)); k < |old(pd.frames)| && pd.frames == Without(old(pd.frames), k)
    {
      hide FrameManager.Valid, SysOk, Region, Dropped, KernelMap, SameFlags, Live, Addr, Join, SumPages, DirOk, Pte, Without;
      b, n := Block(0, 0), 0;
      if base < USER_MEM_START || base % PAGE_SIZE != 0 { return -1, n, b; }
      var code, pte := pd.GetMapping(base);
      if code < 0 { return -2, n, b; }
      if !IsStart(pte) { return -3, n, b; }
      n := StartHasRegion(Live(fm.S), Sps(), pd, base / PAGE_SIZE);
      r, b := DropRegion(pd, base, RemoveFlags(pte), n);
    }

    /**
      `remove_pages` undoes `new_pages`: whenever the first succeeds the second does too, and
      translation, frame list, page count and the allocator's forest are what they were.
    */
    method NewThenRemove(pd: PageDirectory, base: nat, num: nat) returns (r: int, r': int)
      requires Valid() && pd in pds && USER_MEM_START <= base < WORD
      modifies this`mem, pd, fm, fm.Repr
      ensures Valid() && (r == 0 ==> r' == 0)
      ensures pd.frames == old(pd.frames) && pd.numPages == old(pd.numPages) && fm.S == old(fm.S)
      ensures forall q: nat :: User(q) ==> Mapped(pd.dir, q) == Mapped(old(pd.dir), q)
      ensures forall q: nat :: UserMapped(old(pd.dir), q) ==> Pte(pd.dir, q) == Pte(old(pd.dir), q)
      ensures forall q: nat :: UserMapped(old(pd.dir), q) ==> UserReads(pd.dir, q) == UserReads(old(pd.dir), q) && UserWrites(pd.dir, q) == UserWrites(old(pd.dir), q)
    {
      hide FrameManager.Valid, SysOk, Live, LiveOk, Rooted, Good, Addr, Join, DirOk, Pte, Room, Taken, Added, Dropped, Region, Granted, SameFlags, UserReads, UserWrites, KernelMap;
      ghost var b, b', n;
      r, b := NewUserPage(pd, base, num);
      if r < 0 { return r, r; }
      ghost var dir1, s, live := pd.dir, base / PAGE_SIZE, Live(fm.S);
      fm.ValidFacts();
      LiveBlocksOk(fm.numBins, fm.roots, fm.S);
      RegionStart(dir1, s, num);
      AddedBase(old(pd.dir), dir1, s, num, Addr(b));
      PageBase(Pte(dir1, s), b);
      assert pd.frames[0].addr == RemoveFlags(Pte(dir1, s));
      assert OwnsAddr(Space(dir1, pd.frames), Addr(b));
      r', n, b' := RemoveUserPage(pd, base);
      RegionUnique(dir1, s, n, num);
      AddrInjective(live, b, b');
      assert Without([Meta(Addr(b), num)] + old(pd.frames), 0) == old(pd.frames);
      AddedThenDropped(old(pd.dir), dir1, pd.dir, s, num, Addr(b));
      forall q: nat | UserMapped(old(pd.dir), q)
        ensures UserReads(pd.dir, q) == UserReads(old(pd.dir), q) && UserWrites(pd.dir, q) == UserWrites(old(pd.dir), q)
      {
        AccessBack(old(pd.dir), dir1, pd.dir, s, num, Addr(b), q);
      }
    }

    /** Creates a directory holding nothing but the shared kernel tables. */
    method NewDirectory(kernel: seq<Pde>) returns (pd: PageDirectory)
      requires Valid() && KernelTables(kernel)
      modifies this`pds
      ensures Valid() && fresh(pd) && pds == old(pds) + {pd} && pd.frames == [] && pd.dir[..NUM_KERNEL_PDE] == kernel
      ensures forall q: nat :: User(q) ==> !HasTable(pd.dir, q)
    {
      hide FrameManager.Valid, SysOk, Live;
      ghost var sps := Sps();
      assert forall i :: 0 <= i < |kernel| ==> KernelEntry(kernel[i], i);
      pd := new PageDirectory(kernel);
      KernelMapped(pd.dir);
      EmptySpaceOk(pd.dir);
      SysNewDirectory(Live(fm.S), sps, pd, Space(pd.dir, []));
      pds := pds + {pd};
      assert Sps() == sps[pd := Space(pd.dir, [])];
    }

    /** Returns every frame of the directory and unmaps all of user space. */
    method ClearUserSpace(pd: PageDirectory)
      requires Valid() && pd in pds
      modifies pd, fm, fm.Repr
      ensures Valid() && pds == old(pds) && fm.Repr == old(fm.Repr) && fm.roots == old(fm.roots) && fm.numBins == old(fm.numBins)
      ensures pd.frames == [] && pd.numPages == 0 && forall q: nat :: User(q) ==> !HasTable(pd.dir, q)
      ensures Live(fm.S) == Live(old(fm.S)) - BlocksOf(Live(old(fm.S)), old(pd.frames))
    {
      hide FrameManager.Valid, SysOk, Live, LiveOk, Addr, BlocksOf, SumPages;
      ghost var sps, live, fs := Sps(), Live(fm.S), pd.frames;
      assert pd in sps && sps[pd] == Space(pd.dir, pd.frames);
      hide AllQuiet, Sps;
      SysLive(live, sps);
      var addrs := pd.DeallocAllFrames();
      ClearStart(live, fs);
      for i := 0 to |addrs|
        invariant fm.Valid() && fm.Repr == old(fm.Repr) && fm.roots == old(fm.roots) && fm.numBins == old(fm.numBins)
        invariant pd.Quiet() && pd.dir == old(pd.dir) && pd.frames == [] && pd.numPages == 0
        invariant forall d :: d in pds && d != pd ==> unchanged(d)
        invariant Live(fm.S) == live - BlocksOf(live, fs[..i])
      {
        ghost var before := Live(fm.S);
        ClearFinds(live, sps, pd, before, i);
        var r, b := fm.DeallocPages(addrs[i]);
        ClearStep(live, fs, before, i, b);
      }
      assert fs[..|fs|] == fs;
      KernelMapped(pd.dir);
      pd.ClearUserTables();
      KernelMapped(pd.dir);
      EmptySpaceOk(pd.dir);
      SysClear(live, sps, pd, Space(pd.dir, []));
      OnlyChanged(pd);
    }

    /** Clears a directory and destroys it; the list of frames it must not hold is empty by then. */
    method Destroy(pd: PageDirectory)
      requires Valid() && pd in pds
      modifies this`pds, pd, fm, fm.Repr
      ensures Valid() && pds == old(pds) - {pd}
      ensures Live(fm.S) == Live(old(fm.S)) - BlocksOf(Live(old(fm.S)), old(pd.frames))
      ensures fm.Repr == old(fm.Repr) && fm.roots == old(fm.roots) && fm.numBins == old(fm.numBins)
    {
      hide FrameManager.Valid, SysOk, Live, BlocksOf, KernelMap, SumPages, DirOk, LiveOk;
      ClearUserSpace(pd);
      if |pd.frames| > 0 { assert false; }
      ghost var sps := Sps();
      SysDropDirectory(Live(fm.S), sps, pd);
      pds := pds - {pd};
      assert Sps() == sps - {pd};
    }

    /**
      Loads sections: maps the pages from `vLow` on, which must be free user pages, to a new
      frame with the flags given for each page and for its table.  Only the frame accounting of the loader is modelled.
    */
    method MapSections(pd: PageDirectory, vLow: nat, flags: seq<nat>, pdeFlags: seq<nat>) returns (r: int, ghost b: Block)
      requires Valid() && pd in pds && USER_MEM_START <= vLow && vLow % PAGE_SIZE == 0
      requires vLow + |flags| * PAGE_SIZE <= WORD && NoneMapped(pd.dir, vLow / PAGE_SIZE, |flags|)
      requires forall i :: 0 <= i < |flags| ==> flags[i] < PAGE_SIZE && EntryPresent(flags[i]) && !IsStart(flags[i])
      requires |pdeFlags| == |flags| && forall i :: 0 <= i < |pdeFlags| ==> EntryPresent(pdeFlags[i])
      modifies this`mem, pd, fm, fm.Repr
      ensures Valid() && pds == old(pds) && fresh(fm.Repr - old(fm.Repr)) && fm.roots == old(fm.roots) && fm.numBins == old(fm.numBins)
      ensures r == 0 || r == -2
      ensures r == 0 <==> |flags| == 0 || Room(fm.numBins, fm.roots, old(fm.S), |flags|)
      ensures |flags| == 0 || r < 0 ==> pd.dir == old(pd.dir) && pd.frames == old(pd.frames) && fm.S == old(fm.S) && mem == old(mem)
      ensures r == 0 && |flags| > 0 ==> mem == ZeroBytes(old(mem), Addr(b) / PAGE_SIZE, |flags| * PAGE_SIZE / 4)
      ensures r == 0 && |flags| > 0 ==> Added(old(pd.dir), pd.dir, vLow / PAGE_SIZE, |flags|, Addr(b)) && WellMarked(pd.dir, vLow / PAGE_SIZE, |flags|)
      ensures r == 0 && |flags| > 0 ==> DirOk(old(pd.dir)) && Flagged(old(pd.dir), pd.dir, vLow / PAGE_SIZE, flags, pdeFlags)
      ensures r == 0 && |flags| > 0 ==> pd.frames == [Meta(Addr(b), |flags|)] + old(pd.frames) && b !in Live(old(fm.S)) && Live(fm.S) == Live(old(fm.S)) + {b}
      ensures r == 0 && |flags| > 0 ==> Taken(old(fm.S), |flags|, Addr(b), fm.S)
    {
      hide FrameManager.Valid, SysOk, Added, WellMarked, Flagged, NoneMapped, Live, Addr, Room, Taken, IsStart, ZeroBytes, DirOk, EntryPresent;
      var pAddr;
      r, pAddr, b := MapFrame(pd, vLow, flags, pdeFlags);
      if r == 0 && |flags| > 0 { Zero(pAddr, |flags| * PAGE_SIZE / 4); }
    }

    /** Clears memory, which no directory and no frame depends on. */
    method Zero(pAddr: nat, bytes: nat)
      modifies this`mem
      ensures mem == ZeroBytes(old(mem), pAddr / PAGE_SIZE, bytes)
    {
      mem := ZeroBytes(mem, pAddr / PAGE_SIZE, bytes);
    }

    /** Everything of it but the contents of memory. */
    method MapFrame(pd: PageDirectory, vLow: nat, flags: seq<nat>, pdeFlags: seq<nat>) returns (r: int, pAddr: nat, ghost b: Block)
      requires Valid() && pd in pds && USER_MEM_START <= vLow && vLow % PAGE_SIZE == 0
      requires vLow + |flags| * PAGE_SIZE <= WORD && NoneMapped(pd.dir, vLow / PAGE_SIZE, |flags|)
      requires forall i :: 0 <= i < |flags| ==> flags[i] < PAGE_SIZE && EntryPresent(flags[i]) && !IsStart(flags[i])
      requires |pdeFlags| == |flags| && forall i :: 0 <= i < |pdeFlags| ==> EntryPresent(pdeFlags[i])
      modifies pd, fm, fm.Repr
      ensures Valid() && pds == old(pds) && fresh(fm.Repr - old(fm.Repr)) && fm.roots == old(fm.roots) && fm.numBins == old(fm.numBins)
      ensures r == 0 || r == -2
      ensures r == 0 && |flags| > 0 ==> pAddr == Addr(b)
      ensures r == 0 <==> |flags| == 0 || Room(fm.numBins, fm.roots, old(fm.S), |flags|)
      ensures |flags| == 0 || r < 0 ==> pd.dir == old(pd.dir) && pd.frames == old(pd.frames) && fm.S == old(fm.S)
      ensures r == 0 && |flags| > 0 ==> Added(old(pd.dir), pd.dir, vLow / PAGE_SIZE, |flags|, Addr(b)) && WellMarked(pd.dir, vLow / PAGE_SIZE, |flags|)
      ensures r == 0 && |flags| > 0 ==> DirOk(old(pd.dir)) && Flagged(old(pd.dir), pd.dir, vLow / PAGE_SIZE, flags, pdeFlags)
      ensures r == 0 && |flags| > 0 ==> pd.frames == [Meta(Addr(b), |flags|)] + old(pd.frames) && b !in Live(old(fm.S)) && Live(fm.S) == Live(old(fm.S)) + {b}
      ensures r == 0 && |flags| > 0 ==> Taken(old(fm.S), |flags|, Addr(b), fm.S)
    {
      hide FrameManager.Valid, SysOk, Added, Flagged, KernelMap, TablesMade, NoneMapped, AddFlags, Live, LiveOk, DirOk, Pte, Addr, Room, Taken, Join, Backs, SumPages, IsStart;
      b, pAddr := Block(0, 0), 0;
      if |flags| == 0 { return 0, pAddr, b; }
      ghost var sps := Sps();
      assert pd in sps && sps[pd] == Space(pd.dir, pd.frames) && sps[pd := sps[pd]] == sps;
      hide AllQuiet, Sps;
      var ok;
      ok, pAddr, b := Charge(pd, |flags|);
      if !ok { OnlyChanged(pd); return -2, pAddr, b; }
      NewBlockApart(Live(old(fm.S)), sps, b, Meta(pAddr, |flags|), pd);
      var code := pd.MapPages(vLow, pAddr, flags, pdeFlags);
      SectionsAdded(old(pd.dir), pd.dir, vLow / PAGE_SIZE, flags, pAddr);
      SectionsFlagged(old(pd.dir), pd.dir, vLow / PAGE_SIZE, flags, pdeFlags, pAddr);
      MapKeepsKernel(old(pd.dir), pd.dir, vLow / PAGE_SIZE, pAddr, flags, pdeFlags);
      AddPagesOk(Live(old(fm.S)), sps, pd, Space(pd.dir, pd.frames), vLow / PAGE_SIZE, |flags|, b);
      OnlyChanged(pd);
      return 0, pAddr, b;
    }

    /**
      Copies the page at table `d`, slot `t` of the running directory to physical address
      `pAddr`: read it through its own mapping, remap the slot, write it back through the new
      mapping, restore the slot.
    */
    method CopyPage(src: PageDirectory, d: nat, t: nat, pAddr: nat)
      requires src.Quiet() && NUM_KERNEL_PDE <= d < NUM_ENTRIES && t < NUM_ENTRIES && pAddr % PAGE_SIZE == 0
      requires UserMapped(src.dir, d * NUM_ENTRIES + t)
      modifies this`mem, src`dir
      ensures src.dir == old(src.dir)
      ensures mem == old(mem)[pAddr / PAGE_SIZE := Load(old(mem), Phys(Pte(src.dir, d * NUM_ENTRIES + t)))]
    {
      hide AddFlags;
      var p := d * NUM_ENTRIES + t;
      var original := src.dir[d].ptes[t];
      var flags := FlagsOf(original);
      AddFlagsParts(pAddr, flags);
      FlagBits(original);
      var buffer := Load(mem, Phys(Pte(src.dir, p)));
      ghost var dir := src.dir;
      WriteView(dir, p, AddFlags(pAddr, flags), p);
      src.dir := Write(src.dir, p, AddFlags(pAddr, flags));
      mem := mem[Phys(Pte(src.dir, p)) := buffer];
      src.dir := Write(src.dir, p, original);
      assert src.dir[d] == dir[d] && src.dir == dir;
    }

    /** Copies the pages of table `d`, building the table of the copy. */
    method CopyTable(src: PageDirectory, d: nat, pAddr: nat, ghost a: nat, ghost mem0: map<nat, Content>)
      returns (pt: seq<nat>, next: nat)
      requires src.Quiet() && NUM_KERNEL_PDE <= d < NUM_ENTRIES && PdePresent(src.dir[d]) && a % PAGE_SIZE == 0
      requires SourceApart(src.dir, a, |MappedSet(src.dir)|) && pAddr == a + Rank(src.dir, d * NUM_ENTRIES) * PAGE_SIZE
      requires MemCopied(mem0, mem, src.dir, a, d * NUM_ENTRIES)
      modifies this`mem, src`dir
      ensures src.dir == old(src.dir) && |pt| == NUM_ENTRIES
      ensures forall t :: 0 <= t < NUM_ENTRIES ==> pt[t] == CopyPte(src.dir, a, d * NUM_ENTRIES + t)
      ensures next == a + Rank(src.dir, (d + 1) * NUM_ENTRIES) * PAGE_SIZE
      ensures MemCopied(mem0, mem, src.dir, a, (d + 1) * NUM_ENTRIES)
    {
      hide Rank, MappedSet, AddFlags, SourceApart, MemCopied;
      pt, next := ZeroTable(), pAddr;
      for t := 0 to NUM_ENTRIES
        invariant src.dir == old(src.dir) && src.Quiet() && |pt| == NUM_ENTRIES
        invariant next == a + Rank(src.dir, d * NUM_ENTRIES + t) * PAGE_SIZE
        invariant MemCopied(mem0, mem, src.dir, a, d * NUM_ENTRIES + t)
        invariant forall k :: 0 <= k < t ==> pt[k] == CopyPte(src.dir, a, d * NUM_ENTRIES + k)
        invariant forall k :: t <= k < NUM_ENTRIES ==> pt[k] == 0
      {
        ghost var p := d * NUM_ENTRIES + t;
        var entry := src.dir[d].ptes[t];
        assert entry == Pte(src.dir, p);
        if EntryPresent(entry) {
          MemCopyStep(mem0, mem, src.dir, a, p);
          AddressOfIndices(d, t);
          assert next / PAGE_SIZE == a / PAGE_SIZE + Rank(src.dir, p);
          CopyPage(src, d, t, next);
          pt := pt[t := AddFlags(next, FlagsOf(entry))];
          next := next + PAGE_SIZE;
        } else {
          MemCopySkip(mem0, mem, src.dir, a, p, 1);
        }
      }
    }

    /** Copies all of user space, table by table. */
    method CopyTables(dest: PageDirectory, src: PageDirectory, a: nat)
      requires dest.Quiet() && src.Quiet() && dest != src && a % PAGE_SIZE == 0
      requires forall q: nat :: User(q) ==> !HasTable(dest.dir, q)
      requires SourceApart(src.dir, a, |MappedSet(src.dir)|)
      modifies this`mem, src`dir, dest`dir
      ensures src.dir == old(src.dir) && dest.Quiet() && IsFork(src.dir, dest.dir, a)
      ensures dest.dir[..NUM_KERNEL_PDE] == old(dest.dir)[..NUM_KERNEL_PDE]
      ensures MemCopied(old(mem), mem, src.dir, a, NUM_PAGES)
    {
      hide Rank, MappedSet, AddFlags, SourceApart, MemCopied, CopyPte;
      var pAddr := a;
      CopyNothing(mem, src.dir, a);
      forall k | NUM_KERNEL_PDE <= k < NUM_ENTRIES ensures !PdePresent(dest.dir[k]) {
        assert !HasTable(dest.dir, k * NUM_ENTRIES);
      }
      for i := NUM_KERNEL_PDE to NUM_ENTRIES
        invariant src.dir == old(src.dir) && src.Quiet() && dest.Quiet()
        invariant pAddr == a + Rank(src.dir, i * NUM_ENTRIES) * PAGE_SIZE
        invariant MemCopied(old(mem), mem, src.dir, a, i * NUM_ENTRIES)
        invariant forall q: nat :: User(q) && q < i * NUM_ENTRIES ==> Pte(dest.dir, q) == CopyPte(src.dir, a, q)
        invariant forall k :: i <= k < NUM_ENTRIES ==> !PdePresent(dest.dir[k])
        invariant forall k :: NUM_KERNEL_PDE <= k < i ==> SameTable(src.dir[k], dest.dir[k])
        invariant dest.dir[..NUM_KERNEL_PDE] == old(dest.dir)[..NUM_KERNEL_PDE]
      {
        var entry := src.dir[i];
        if PdePresent(entry) {
          var pt;
          pt, pAddr := CopyTable(src, i, pAddr, a, old(mem));
          dest.dir := dest.dir[i := Pde(entry.flags, pt)];
        } else {
          MemCopySkip(old(mem), mem, src.dir, a, i * NUM_ENTRIES, NUM_ENTRIES);
          forall q: nat | i * NUM_ENTRIES <= q < (i + 1) * NUM_ENTRIES ensures CopyPte(src.dir, a, q) == 0 {
            CopyUnmapped(src.dir, a, q);
          }
        }
      }
    }

    /**
      Fork: gives `dest`, which is empty, a copy of the running directory `src` in one frame.
      The system stays in order exactly when `src` is fork-safe.
    */
    method DeepCopy(dest: PageDirectory, src: PageDirectory) returns (r: int, ghost b: Block)
      requires Valid() && dest in pds && src in pds && dest != src && dest.frames == []
      requires forall q: nat :: User(q) ==> !HasTable(dest.dir, q)
      modifies this`mem, dest, src`dir, fm, fm.Repr
      ensures r == 0 || r == -3
      ensures pds == old(pds) && src.dir == old(src.dir) && fresh(fm.Repr - old(fm.Repr)) && fm.roots == old(fm.roots) && fm.numBins == old(fm.numBins)
      ensures r == 0 <==> Room(fm.numBins, fm.roots, old(fm.S), src.numPages)
      ensures r < 0 ==> Valid() && SameSystem(dest)
      ensures r == 0 ==> DirOk(src.dir) && (Valid() <==> ForkSafe(src.dir)) && (Valid() <==> SysOk(Live(fm.S), Sps()))
      ensures Sps() == old(Sps())[dest := Space(dest.dir, dest.frames)]
      ensures r == 0 ==> LiveOk(Live(fm.S)) && Backs(b, Meta(Addr(b), src.numPages))
      ensures r == 0 ==> DirOk(dest.dir) && IsFork(src.dir, dest.dir, Addr(b)) && dest.frames == [Meta(Addr(b), src.numPages)]
      ensures r == 0 ==> src.numPages == |MappedSet(src.dir)| && Live(fm.S) == Live(old(fm.S)) + {b} && b !in Live(old(fm.S))
      ensures r == 0 ==> Taken(old(fm.S), src.numPages, Addr(b), fm.S)
      ensures r == 0 ==> MemCopied(old(mem), mem, src.dir, Addr(b), NUM_PAGES) && SameContents(old(mem), mem, src.dir, dest.dir)
    {
      hide KernelTables, KernelMap, SameContents, FrameManager.Valid, SysOk, Live, LiveOk, Addr, Room, Taken, Join, SumPages, DirOk, Pte, Rank, MappedSet, IsFork, MemCopied, SourceApart, ForkSafe, Backs, HasTable;
      b := Block(0, 0);
      ghost var sps := Sps();
      assert dest in sps && sps[dest] == Space(dest.dir, []) && sps[dest := sps[dest]] == sps;
      assert src in sps && sps[src] == Space(src.dir, src.frames) && src.Quiet();
      hide AllQuiet, Sps;
      var ok, pAddr;
      ok, pAddr, b := Charge(dest, src.numPages);
      if !ok { OnlyChanged(dest); return -3, b; }
      ForkApart(Live(old(fm.S)), sps, src, b, Meta(pAddr, src.numPages));
      NewBlockApart(Live(old(fm.S)), sps, b, Meta(pAddr, src.numPages), src);
      KernelMapped(dest.dir);
      CopyTables(dest, src, pAddr);
      KernelMapped(dest.dir);
      ForkContents(old(mem), mem, src.dir, dest.dir, pAddr);
      ForkSysOk(Live(old(fm.S)), sps, dest, src, Space(dest.dir, dest.frames), b);
      assert dest.frames == [Meta(pAddr, src.numPages)];
      TwoChanged(dest);
      return 0, b;
    }

    /** Only `pd` has changed among the directories, the others having been put back. */
    twostate lemma TwoChanged(pd: PageDirectory)
      requires pds == old(pds) && pd in pds && old(AllQuiet()) && pd.Quiet() && KernelMap(pd.dir)
      requires forall d :: d in pds && d != pd ==> d.St() == old(d.St()) && d.frames == old(d.frames) && d.numPages == old(d.numPages)
      ensures AllQuiet() && Sps() == old(Sps())[pd := Space(pd.dir, pd.frames)]
    {
    }
  }
}
