/**
  What forking a space that is not fork-safe leads to: a run of the memory manager, every step
  of which does what the code does and takes the block the allocator has to hand out, that ends
  with two directories translating to the same physical page.
*/
module UnsafeFork {
  import opened Machine
  import opened Blocks
  import opened BuddyForest
  import opened FrameIndex
  import opened FrameAllocator
  import opened Paging
  import opened PageDirectories
  import opened Spaces
  import opened Fork
  import opened VmRuns

  // ---- Runs of the kernel --------------------------------------------------

  /** A request for `num` pages gets the block at `a`: there is only one best fit to cut it from. */
  ghost predicate Forced(S: Forest, num: nat, a: nat, T: Forest) {
    exists c :: OnlyCut(S, num, c, a, T)
  }

  ghost predicate OnlyCut(S: Forest, num: nat, c: Block, a: nat, T: Forest) {
    num > 0 && Cut(S, OrderFor(num), c, a, T) && forall d :: BestFit(S, OrderFor(num), d) ==> d == c
  }

  /** What an event does to the allocator's forest. */
  ghost predicate ForestStep(n: nat, roots: set<Block>, S: Forest, ev: Event, T: Forest) {
    match ev
    case Grown(_, _, b, _, num) => Forced(S, num, Addr(b), T)
    case Forked(_, sp, b, _) => |sp.frames| == 1 && Forced(S, sp.frames[0].n, Addr(b), T)
    case Shrunk(_, _, b, _, _, _) => T == Join(n, roots, S, b)
    case Cleared(_, _) => Good(n, roots, T)
    case _ => T == S
  }

  /** The memory manager between two operations. */
  datatype World = World(S: Forest, sps: Spaces)

  /** One operation of the memory manager on directories and allocator, forks made whatever the source. */
  ghost predicate WorldStep(n: nat, roots: set<Block>, w: World, ev: Event, w': World) {
    && Occurs(Live(w.S), w.sps, ev) && w'.sps == SpacesAfter(w.sps, ev)
    && ForestStep(n, roots, w.S, ev, w'.S) && Live(w'.S) == LiveAfter(Live(w.S), w.sps, ev)
  }

  /** The worlds that the events lead through. */
  ghost predicate KernelRun(n: nat, roots: set<Block>, ws: seq<World>, evs: seq<Event>) {
    && |ws| == |evs| + 1 && RootsOk(n, roots) && ws[0] == World(InitForest(roots), map[])
    && forall k :: 0 <= k < |evs| ==> WorldStep(n, roots, ws[k], evs[k], ws[k + 1])
  }

  // ---- Directories with at most two user pages -----------------------------

  const P0: nat := FIRST_USER_PAGE
  const P1: nat := FIRST_USER_PAGE + 1

  /** Entry `x` for the lowest user page and `y` for the next one. */
  function TwoPages(x: nat, y: nat): Dir {
    seq(NUM_ENTRIES, i => if i == NUM_KERNEL_PDE then Pde(USER_WR, PairTable(x, y)) else Pde(0, []))
  }

  function PairTable(x: nat, y: nat): seq<nat> { seq(NUM_ENTRIES, t => if t == 0 then x else if t == 1 then y else 0) }

  lemma PairPte(x: nat, y: nat, q: nat)
    requires q < NUM_PAGES
    ensures DirOk(TwoPages(x, y))
    ensures Pte(TwoPages(x, y), q) == if q == P0 then x else if q == P1 then y else 0
  {
  }

  lemma PairView(x: nat, y: nat)
    ensures DirOk(TwoPages(x, y))
    ensures forall q: nat :: q < NUM_PAGES ==> Pte(TwoPages(x, y), q) == if q == P0 then x else if q == P1 then y else 0
  {
    hide Pte, DirOk, TwoPages;
    PairPte(x, y, 0);
    forall q: nat | q < NUM_PAGES ensures Pte(TwoPages(x, y), q) == if q == P0 then x else if q == P1 then y else 0 { PairPte(x, y, q); }
  }

  lemma EmptyView()
    ensures NoUserTable(EmptySpace().dir) && forall q: nat :: q < NUM_PAGES ==> Pte(EmptySpace().dir, q) == 0
  {
  }

  /** A page of a program, and a page that is a whole region of its own. */
  const PLAIN: nat := USER_WR
  const MARKED: nat := USER_WR + START_BIT + END_BIT

  /** The first and the last page of a region of two. */
  const OPEN: nat := USER_WR + START_BIT
  const CLOSE: nat := USER_WR + END_BIT

  lemma PairFlags(f: nat)
    ensures Phys(f * PAGE_SIZE + OPEN) == f && EntryPresent(f * PAGE_SIZE + OPEN) && IsStart(f * PAGE_SIZE + OPEN) && !IsEnd(f * PAGE_SIZE + OPEN)
    ensures Phys(f * PAGE_SIZE + CLOSE) == f && EntryPresent(f * PAGE_SIZE + CLOSE) && !IsStart(f * PAGE_SIZE + CLOSE) && IsEnd(f * PAGE_SIZE + CLOSE)
  {
    hide IsStart, IsEnd, EntryPresent;
    FlagBits(f * PAGE_SIZE + OPEN);
    FlagBits(f * PAGE_SIZE + CLOSE);
    assert EntryPresent(OPEN) && IsStart(OPEN) && !IsEnd(OPEN) && EntryPresent(CLOSE) && !IsStart(CLOSE) && IsEnd(CLOSE) by { PairConstants(); }
  }

  lemma PairConstants()
    ensures EntryPresent(OPEN) && IsStart(OPEN) && !IsEnd(OPEN) && EntryPresent(CLOSE) && !IsStart(CLOSE) && IsEnd(CLOSE)
  {
  }

  lemma FlagValues(f: nat)
    ensures Phys(f * PAGE_SIZE + PLAIN) == f && EntryPresent(f * PAGE_SIZE + PLAIN) && !IsStart(f * PAGE_SIZE + PLAIN)
    ensures Phys(f * PAGE_SIZE + MARKED) == f && EntryPresent(f * PAGE_SIZE + MARKED)
    ensures IsStart(f * PAGE_SIZE + MARKED) && IsEnd(f * PAGE_SIZE + MARKED) && RemoveFlags(f * PAGE_SIZE + MARKED) == f * PAGE_SIZE
    ensures FlagsOf(f * PAGE_SIZE + PLAIN) == PLAIN && FlagsOf(f * PAGE_SIZE + MARKED) == MARKED
  {
    hide IsStart, IsEnd, EntryPresent;
    FlagBits(f * PAGE_SIZE + PLAIN);
    FlagBits(f * PAGE_SIZE + MARKED);
    assert EntryPresent(PLAIN) && EntryPresent(MARKED) && !IsStart(PLAIN) && IsStart(MARKED) && IsEnd(MARKED) by { Constants(); }
  }

  lemma Constants()
    ensures EntryPresent(PLAIN) && EntryPresent(MARKED) && !IsStart(PLAIN) && IsStart(MARKED) && IsEnd(MARKED)
  {
  }

  // ---- The allocator's side ------------------------------------------------

  const ROOT: Block := Block(0, 2)
  const B0: Block := Block(0, 0)
  const B1: Block := Block(1, 0)
  const B2: Block := Block(1, 1)

  /** A machine with four pages, all free. */
  function F0(): Forest { InitForest({ROOT}) }

  /** The same cut into two pages and a pair. */
  function Shape(b0: Status, b1: Status, b2: Status): Forest { map[ROOT := Parent, Block(0, 1) := Parent, B2 := b2, B0 := b0, B1 := b1] }

  lemma FirstCut()
    ensures OnlyCut(F0(), 1, ROOT, Addr(B0), Shape(Alloc, Free, Free))
  {
    assert OrderFor(1) == 0;
    assert Leftmost(ROOT, 0) == B0;
    var S1 := SplitAt(F0(), ROOT);
    assert SplitDown(F0(), ROOT, 0) == SplitDown(S1, Block(0, 1), 0) == SplitAt(S1, Block(0, 1));
    assert Carve(F0(), ROOT, 0) == Shape(Alloc, Free, Free);
  }

  lemma SecondCut()
    ensures OnlyCut(Shape(Alloc, Free, Free), 1, B1, Addr(B1), Shape(Alloc, Alloc, Free))
  {
    assert OrderFor(1) == 0 && Leftmost(B1, 0) == B1;
    assert Carve(Shape(Alloc, Free, Free), B1, 0) == Shape(Alloc, Alloc, Free);
  }

  lemma ThirdCut()
    ensures OnlyCut(Shape(Alloc, Alloc, Free), 2, B2, Addr(B2), Shape(Alloc, Alloc, Alloc))
  {
    assert OrderFor(2) == 1 + OrderFor(1) && Leftmost(B2, 1) == B2;
    assert Carve(Shape(Alloc, Alloc, Free), B2, 1) == Shape(Alloc, Alloc, Alloc);
  }

  lemma ThirdBack()
    ensures Join(3, {ROOT}, Shape(Alloc, Alloc, Alloc), B2) == Shape(Alloc, Alloc, Free)
  {
    assert Buddy(B2) == Block(0, 1);
  }

  lemma Lives()
    ensures Live(F0()) == {} && Live(Shape(Alloc, Free, Free)) == {B0} && Live(Shape(Alloc, Alloc, Free)) == {B0, B1}
    ensures Live(Shape(Alloc, Alloc, Alloc)) == {B0, B1, B2} && RootsOk(3, {ROOT})
  {
  }

  lemma BlockPages(p: nat)
    ensures (HasPage(B0, p) <==> p == 0) && (HasPage(B1, p) <==> p == 1) && (HasPage(B2, p) <==> p == 2 || p == 3)
  {
    assert Up(p, 1) == Up(p / 2, 0);
  }

  lemma BlockAddrs()
    ensures Addr(B0) == P0 * PAGE_SIZE && Addr(B1) == (P0 + 1) * PAGE_SIZE && Addr(B2) == (P0 + 2) * PAGE_SIZE
    ensures Pow2(0) == 1 && Pow2(1) == 2
  {
  }

  lemma AllApart()
    ensures LiveOk({B0}) && LiveOk({B0, B1}) && LiveOk({B0, B1, B2})
  {
    hide HasPage;
    forall p: nat ensures (HasPage(B0, p) <==> p == 0) && (HasPage(B1, p) <==> p == 1) && (HasPage(B2, p) <==> p == 2 || p == 3) {
      BlockPages(p);
    }
  }

  // ---- The directories' side -----------------------------------------------

  function X(f: nat): nat { f * PAGE_SIZE + MARKED }
  function Y(f: nat): nat { f * PAGE_SIZE + PLAIN }

  /** A program page above the lowest page. */
  function Loaded(): Space { Space(TwoPages(0, Y(P0)), [Meta(P0 * PAGE_SIZE, 1)]) }

  /** The same with a `new_pages` region at the lowest page. */
  function Unsafe(): Space { Space(TwoPages(X(P0 + 1), Y(P0)), [Meta((P0 + 1) * PAGE_SIZE, 1), Meta(P0 * PAGE_SIZE, 1)]) }

  /** Its fork, and the fork after removing the region. */
  function Copy(): Space { Space(TwoPages(X(P0 + 2), Y(P0 + 3)), [Meta((P0 + 2) * PAGE_SIZE, 2)]) }
  function Dangling(): Space { Space(TwoPages(0, Y(P0 + 3)), []) }

  /** Another process with a region of two pages. */
  function Newcomer(): Space {
    Space(TwoPages((P0 + 2) * PAGE_SIZE + OPEN, (P0 + 3) * PAGE_SIZE + CLOSE), [Meta((P0 + 2) * PAGE_SIZE, 2)])
  }

  lemma EmptyFrames()
    ensures EmptySpace().frames == [] && DirOk(EmptySpace().dir)
  {
  }

  lemma CreateOccurs(live: set<Block>, sps: Spaces, d: PageDirectory)
    requires d !in sps
    ensures Occurs(live, sps, Created(d, EmptySpace()))
  {
    EmptyView();
  }

  lemma LoadedOccurs(d: PageDirectory)
    ensures Occurs({}, map[d := EmptySpace()], Grown(d, Loaded(), B0, P1, 1))
  {
    hide DirOk, Pte, TwoPages, EmptySpace, Addr, LiveOk, Pow2, HasPage;
    EmptyView();
    PairView(0, Y(P0));
    FlagValues(P0);
    BlockAddrs();
    AllApart();
    assert {} + {B0} == {B0};
    EmptyFrames();
    assert Loaded().frames == [Meta(Addr(B0), 1)] + [];
  }

  lemma UnsafeOccurs(d: PageDirectory)
    ensures Occurs({B0}, map[d := Loaded()], Grown(d, Unsafe(), B1, P0, 1))
  {
    hide DirOk, Pte, TwoPages, Addr, LiveOk, Pow2, HasPage;
    PairView(0, Y(P0));
    PairView(X(P0 + 1), Y(P0));
    FlagValues(P0 + 1);
    BlockAddrs();
    AllApart();
    assert {B0} + {B1} == {B0, B1};
    assert Unsafe().frames == [Meta(Addr(B1), 1)] + Loaded().frames;
    assert Region(Unsafe().dir, P0, 1);
  }

  lemma UnsafeRanks()
    ensures DirOk(Unsafe().dir) && Rank(Unsafe().dir, P0) == 0 && Rank(Unsafe().dir, P1) == 1 && MappedSet(Unsafe().dir) == {P0, P1}
  {
    hide DirOk, Pte, TwoPages;
    PairView(X(P0 + 1), Y(P0));
    FlagValues(P0);
    FlagValues(P0 + 1);
    assert Rank(Unsafe().dir, P0 + 1) == Rank(Unsafe().dir, P0) + 1;
  }

  /** The source is not fork-safe: its lowest region is not all of its memory. */
  lemma NotForkSafe()
    ensures DirOk(Unsafe().dir) && !ForkSafe(Unsafe().dir)
  {
    hide DirOk, Pte, TwoPages, Rank;
    UnsafeRanks();
    PairView(X(P0 + 1), Y(P0));
    FlagValues(P0 + 1);
    assert Region(Unsafe().dir, P0, 1);
    assert |{P0, P1}| == 2;
  }

  lemma PairTables(x: nat, y: nat, x': nat, y': nat)
    ensures DirOk(TwoPages(x, y)) && DirOk(TwoPages(x', y')) && SameTables(TwoPages(x, y), TwoPages(x', y'))
  {
  }

  lemma CopyIsFork()
    ensures DirOk(Unsafe().dir) && DirOk(Copy().dir) && IsFork(Unsafe().dir, Copy().dir, (P0 + 2) * PAGE_SIZE)
  {
    hide DirOk, Pte, TwoPages, Rank, AddFlags;
    UnsafeRanks();
    PairView(X(P0 + 1), Y(P0));
    PairView(X(P0 + 2), Y(P0 + 3));
    FlagValues(P0);
    FlagValues(P0 + 1);
    var a := (P0 + 2) * PAGE_SIZE;
    AddFlagsParts(a, MARKED);
    AddFlagsParts(a + PAGE_SIZE, PLAIN);
    PairTables(X(P0 + 1), Y(P0), X(P0 + 2), Y(P0 + 3));
    forall q: nat | User(q) ensures Pte(Copy().dir, q) == CopyPte(Unsafe().dir, a, q) {
    }
  }

  lemma CopyOccurs(d: PageDirectory, e: PageDirectory)
    requires d != e
    ensures Occurs({B0, B1}, map[d := Unsafe(), e := EmptySpace()], Forked(e, Copy(), B2, d))
  {
    hide DirOk, Pte, TwoPages, Addr, LiveOk, Pow2, HasPage, IsFork, MappedSet, EmptySpace;
    CopyIsFork();
    UnsafeRanks();
    BlockAddrs();
    AllApart();
    EmptyFrames();
    assert {B0, B1} + {B2} == {B0, B1, B2};
    assert |{P0, P1}| == 2;
  }

  lemma DropOccurs(d: PageDirectory, e: PageDirectory)
    requires d != e
    ensures Occurs({B0, B1, B2}, map[d := Unsafe(), e := Copy()], Shrunk(e, Dangling(), B2, P0, 1, 0))
  {
    hide DirOk, Pte, TwoPages, Addr, Pow2;
    PairView(X(P0 + 2), Y(P0 + 3));
    PairView(0, Y(P0 + 3));
    FlagValues(P0 + 2);
    BlockAddrs();
    assert Region(Copy().dir, P0, 1);
    assert Dangling().frames == Without(Copy().frames, 0);
  }

  lemma NewcomerOccurs(d: PageDirectory, e: PageDirectory, f: PageDirectory)
    requires d != e && f != d && f != e
    ensures Occurs({B0, B1}, map[d := Unsafe(), e := Dangling(), f := EmptySpace()], Grown(f, Newcomer(), B2, P0, 2))
  {
    hide DirOk, Pte, TwoPages, EmptySpace, Addr, LiveOk, Pow2, HasPage;
    EmptyView();
    EmptyFrames();
    PairView((P0 + 2) * PAGE_SIZE + OPEN, (P0 + 3) * PAGE_SIZE + CLOSE);
    PairFlags(P0 + 2);
    PairFlags(P0 + 3);
    BlockAddrs();
    AllApart();
    assert {B0, B1} + {B2} == {B0, B1, B2};
    assert Newcomer().frames == [Meta(Addr(B2), 2)] + [];
    assert Region(Newcomer().dir, P0, 2);
  }

  // ---- The run -------------------------------------------------------------

  /** The worlds the run leads through. */
  function Worlds(d: PageDirectory, e: PageDirectory, f: PageDirectory): seq<World> {
    var one, two, three := Shape(Alloc, Free, Free), Shape(Alloc, Alloc, Free), Shape(Alloc, Alloc, Alloc);
    [World(F0(), map[]),
     World(F0(), map[d := EmptySpace()]),
     World(one, map[d := Loaded()]),
     World(two, map[d := Unsafe()]),
     World(two, map[d := Unsafe(), e := EmptySpace()]),
     World(three, map[d := Unsafe(), e := Copy()]),
     World(two, map[d := Unsafe(), e := Dangling()]),
     World(two, map[d := Unsafe(), e := Dangling(), f := EmptySpace()]),
     World(three, map[d := Unsafe(), e := Dangling(), f := Newcomer()])]
  }

  /** Load a program, `new_pages`, fork, `remove_pages` in the child, a new process, `new_pages` there. */
  function Events(d: PageDirectory, e: PageDirectory, f: PageDirectory): seq<Event> {
    [Created(d, EmptySpace()),
     Grown(d, Loaded(), B0, P1, 1),
     Grown(d, Unsafe(), B1, P0, 1),
     Created(e, EmptySpace()),
     Forked(e, Copy(), B2, d),
     Shrunk(e, Dangling(), B2, P0, 1, 0),
     Created(f, EmptySpace()),
     Grown(f, Newcomer(), B2, P0, 2)]
  }

  lemma CreateStep(S: Forest, sps: Spaces, d: PageDirectory)
    requires d !in sps
    ensures WorldStep(3, {ROOT}, World(S, sps), Created(d, EmptySpace()), World(S, sps[d := EmptySpace()]))
  {
    hide Occurs, Live, EmptySpace;
    CreateOccurs(Live(S), sps, d);
  }

  lemma LoadStep(d: PageDirectory)
    ensures WorldStep(3, {ROOT}, World(F0(), map[d := EmptySpace()]), Grown(d, Loaded(), B0, P1, 1), World(Shape(Alloc, Free, Free), map[d := Loaded()]))
  {
    hide Occurs, Live, EmptySpace, Loaded, F0, Shape, OnlyCut, Addr;
    LoadedOccurs(d);
    Lives();
    FirstCut();
    assert map[d := EmptySpace()][d := Loaded()] == map[d := Loaded()] && {} + {B0} == {B0};
  }

  lemma RegionStep(d: PageDirectory)
    ensures WorldStep(3, {ROOT}, World(Shape(Alloc, Free, Free), map[d := Loaded()]), Grown(d, Unsafe(), B1, P0, 1),
      World(Shape(Alloc, Alloc, Free), map[d := Unsafe()]))
  {
    hide Occurs, Live, Loaded, Unsafe, Shape, OnlyCut, Addr;
    UnsafeOccurs(d);
    Lives();
    SecondCut();
    assert map[d := Loaded()][d := Unsafe()] == map[d := Unsafe()] && {B0} + {B1} == {B0, B1};
  }

  lemma ForkStep(d: PageDirectory, e: PageDirectory)
    requires d != e
    ensures WorldStep(3, {ROOT}, World(Shape(Alloc, Alloc, Free), map[d := Unsafe(), e := EmptySpace()]), Forked(e, Copy(), B2, d),
      World(Shape(Alloc, Alloc, Alloc), map[d := Unsafe(), e := Copy()]))
  {
    hide Occurs, Live, Unsafe, EmptySpace, TwoPages, Shape, OnlyCut, Addr;
    CopyOccurs(d, e);
    Lives();
    ThirdCut();
    assert map[d := Unsafe(), e := EmptySpace()][e := Copy()] == map[d := Unsafe(), e := Copy()] && {B0, B1} + {B2} == {B0, B1, B2};
  }

  lemma RemoveStep(d: PageDirectory, e: PageDirectory)
    requires d != e
    ensures WorldStep(3, {ROOT}, World(Shape(Alloc, Alloc, Alloc), map[d := Unsafe(), e := Copy()]), Shrunk(e, Dangling(), B2, P0, 1, 0),
      World(Shape(Alloc, Alloc, Free), map[d := Unsafe(), e := Dangling()]))
  {
    hide Occurs, Live, Unsafe, Copy, Dangling, Shape, Join;
    DropOccurs(d, e);
    Lives();
    ThirdBack();
    assert map[d := Unsafe(), e := Copy()][e := Dangling()] == map[d := Unsafe(), e := Dangling()] && {B0, B1, B2} - {B2} == {B0, B1};
  }

  lemma NewcomerStep(d: PageDirectory, e: PageDirectory, f: PageDirectory)
    requires d != e && f != d && f != e
    ensures WorldStep(3, {ROOT}, World(Shape(Alloc, Alloc, Free), map[d := Unsafe(), e := Dangling(), f := EmptySpace()]), Grown(f, Newcomer(), B2, P0, 2),
      World(Shape(Alloc, Alloc, Alloc), map[d := Unsafe(), e := Dangling(), f := Newcomer()]))
  {
    hide Occurs, Live, Unsafe, Dangling, EmptySpace, Newcomer, Shape, OnlyCut, Addr;
    NewcomerOccurs(d, e, f);
    Lives();
    ThirdCut();
    var m := map[d := Unsafe(), e := Dangling(), f := EmptySpace()];
    assert m[f := Newcomer()] == map[d := Unsafe(), e := Dangling(), f := Newcomer()] && {B0, B1} + {B2} == {B0, B1, B2};
  }

  /** The events lead the kernel through those worlds. */
  lemma RunHolds(d: PageDirectory, e: PageDirectory, f: PageDirectory)
    requires d != e && f != d && f != e
    ensures KernelRun(3, {ROOT}, Worlds(d, e, f), Events(d, e, f))
  {
    hide WorldStep, Unsafe, Loaded, Copy, Dangling, EmptySpace, Newcomer, Shape;
    Lives();
    CreateStep(F0(), map[], d);
    LoadStep(d);
    RegionStep(d);
    CreateStep(Shape(Alloc, Alloc, Free), map[d := Unsafe()], e);
    ForkStep(d, e);
    RemoveStep(d, e);
    CreateStep(Shape(Alloc, Alloc, Free), map[d := Unsafe(), e := Dangling()], f);
    NewcomerStep(d, e, f);
    assert map[][d := EmptySpace()] == map[d := EmptySpace()];
    assert map[d := Unsafe()][e := EmptySpace()] == map[d := Unsafe(), e := EmptySpace()];
    assert map[d := Unsafe(), e := Dangling()][f := EmptySpace()] == map[d := Unsafe(), e := Dangling(), f := EmptySpace()];
  }

  function Start(d: PageDirectory): seq<World> {
    [World(F0(), map[]), World(F0(), map[d := EmptySpace()]), World(Shape(Alloc, Free, Free), map[d := Loaded()]),
     World(Shape(Alloc, Alloc, Free), map[d := Unsafe()])]
  }

  function FirstEvents(d: PageDirectory): seq<Event> {
    [Created(d, EmptySpace()), Grown(d, Loaded(), B0, P1, 1), Grown(d, Unsafe(), B1, P0, 1)]
  }

  /** Before the fork the whole system is in perfect order, and the source is not fork-safe. */
  lemma UnsafeReached(d: PageDirectory)
    ensures KernelRun(3, {ROOT}, Start(d), FirstEvents(d))
    ensures SysOk(Live(Start(d)[3].S), Start(d)[3].sps) && Start(d)[3].sps == map[d := Unsafe()]
    ensures DirOk(Unsafe().dir) && !ForkSafe(Unsafe().dir)
  {
    hide SysOk, DirOk, Unsafe, Loaded, EmptySpace, ForkSafe, Occurs, ForestStep, Live, Shape;
    assert map[][d := EmptySpace()] == map[d := EmptySpace()];
    CreateStep(F0(), map[], d);
    LoadStep(d);
    RegionStep(d);
    Lives();
    NothingYet();
    EventKeeps({}, map[], Created(d, EmptySpace()));
    EventKeeps({}, map[d := EmptySpace()], Grown(d, Loaded(), B0, P1, 1));
    EventKeeps({B0}, map[d := Loaded()], Grown(d, Unsafe(), B1, P0, 1));
    NotForkSafe();
  }

  /**
    Isolation is lost: process `f` is given memory that the fork `e` of `d` still translates to.
  */
  lemma SharedPage(d: PageDirectory, e: PageDirectory, f: PageDirectory)
    requires d != e && f != d && f != e
    ensures KernelRun(3, {ROOT}, Worlds(d, e, f), Events(d, e, f))
    ensures var sps := Worlds(d, e, f)[|Events(d, e, f)|].sps;
      && e in sps && f in sps && DirOk(sps[e].dir) && DirOk(sps[f].dir) && UserMapped(sps[e].dir, P1) && UserMapped(sps[f].dir, P1)
      && Phys(Pte(sps[e].dir, P1)) == Phys(Pte(sps[f].dir, P1))
  {
    hide DirOk, Unsafe, EmptySpace, TwoPages, Pte, KernelRun, Shape;
    RunHolds(d, e, f);
    PairView(0, Y(P0 + 3));
    PairView((P0 + 2) * PAGE_SIZE + OPEN, (P0 + 3) * PAGE_SIZE + CLOSE);
    FlagValues(P0 + 3);
    PairFlags(P0 + 3);
  }
}
