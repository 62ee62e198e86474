/**
  Runs of the whole memory system, apart from the objects: what the virtual memory manager's
  operations do to the set of allocated blocks and to the address spaces, in any order over
  any number of directories.
*/
module VmRuns {
  import opened Machine
  import opened Blocks
  import opened BuddyForest
  import opened FrameIndex
  import opened FrameAllocator
  import opened Paging
  import opened PageDirectories
  import opened Spaces
  import opened Fork
  import opened VirtualMemory

  /** One successful operation on directory `d`, whose space is `sp` afterwards; `b` is the block gained or lost. */
  datatype Event =
    | Created(d: PageDirectory, sp: Space)
    | Grown(d: PageDirectory, sp: Space, b: Block, s: nat, n: nat)
    | Shrunk(d: PageDirectory, sp: Space, b: Block, s: nat, n: nat, k: nat)
    | Forked(d: PageDirectory, sp: Space, b: Block, src: PageDirectory)
    | Cleared(d: PageDirectory, sp: Space)
    | Destroyed(d: PageDirectory)

  ghost predicate NoUserTable(dir: Dir) { DirOk(dir) && forall q: nat :: User(q) ==> !HasTable(dir, q) }

  /** The allocator hands out a block apart from all others, large enough for `n` pages. */
  ghost predicate Fresh(live: set<Block>, b: Block, n: nat) {
    b !in live && LiveOk(live + {b}) && Backs(b, Meta(Addr(b), n))
  }

  /** What the code of each operation does when it succeeds. */
  ghost predicate Occurs(live: set<Block>, sps: Spaces, ev: Event) {
    match ev
    case Created(d, sp) => d !in sps && sp.frames == [] && NoUserTable(sp.dir)
    case Grown(d, sp, b, s, n) =>
      && d in sps && DirOk(sp.dir) && Fresh(live, b, n) && Added(sps[d].dir, sp.dir, s, n, Addr(b)) && WellMarked(sp.dir, s, n)
      && sp.frames == [Meta(Addr(b), n)] + sps[d].frames
    case Shrunk(d, sp, b, s, n, k) =>
      && d in sps && b in live && k < |sps[d].frames| && DirOk(sps[d].dir) && s < NUM_PAGES
      && Region(sps[d].dir, s, n) && Dropped(sps[d].dir, sp.dir, s, n)
      && Addr(b) == sps[d].frames[k].addr == RemoveFlags(Pte(sps[d].dir, s)) && sp.frames == Without(sps[d].frames, k)
    case Forked(d, sp, b, src) =>
      && d in sps && src in sps && d != src && sps[d].frames == [] && DirOk(sps[src].dir) && DirOk(sp.dir)
      && Fresh(live, b, |MappedSet(sps[src].dir)|) && IsFork(sps[src].dir, sp.dir, Addr(b))
      && sp.frames == [Meta(Addr(b), |MappedSet(sps[src].dir)|)]
    case Cleared(d, sp) => d in sps && sp.frames == [] && NoUserTable(sp.dir)
    case Destroyed(d) => d in sps && sps[d].frames == []
  }

  /** The same, forks of sources that are not fork-safe excepted. */
  ghost predicate Happens(live: set<Block>, sps: Spaces, ev: Event) {
    Occurs(live, sps, ev) && (ev.Forked? ==> ForkSafe(sps[ev.src].dir))
  }

  function LiveAfter(live: set<Block>, sps: Spaces, ev: Event): set<Block> {
    match ev
    case Grown(_, _, b, _, _) => live + {b}
    case Shrunk(_, _, b, _, _, _) => live - {b}
    case Forked(_, _, b, _) => live + {b}
    case Cleared(d, _) => if d in sps then live - BlocksOf(live, sps[d].frames) else live
    case _ => live
  }

  function SpacesAfter(sps: Spaces, ev: Event): Spaces {
    if ev.Destroyed? then sps - {ev.d} else sps[ev.d := ev.sp]
  }

  /**
    An operation keeps the correspondence between blocks and frame lists, and every space in
    order, if and only if it is not a fork of a source that is not fork-safe.
  */
  lemma EventKeeps(live: set<Block>, sps: Spaces, ev: Event)
    requires SysOk(live, sps) && Occurs(live, sps, ev)
    ensures SysOk(LiveAfter(live, sps, ev), SpacesAfter(sps, ev)) <==> Happens(live, sps, ev)
  {
    hide SysOk, SpaceOk, Added, WellMarked, Region, Dropped, Addr, Backs, LiveOk, IsFork, ForkSafe, MappedSet, BlocksOf;
    match ev {
      case Created(d, sp) =>
        EmptySpaceOk(sp.dir);
        SysNewDirectory(live, sps, d, sp);
      case Grown(d, sp, b, s, n) => AddPagesOk(live, sps, d, sp, s, n, b);
      case Shrunk(d, sp, b, s, n, k) => RemovePagesOk(live, sps, d, sp, s, n, b, k);
      case Forked(d, sp, b, src) => ForkSysOk(live, sps, d, src, sp, b);
      case Cleared(d, sp) =>
        EmptySpaceOk(sp.dir);
        SysClear(live, sps, d, sp);
      case Destroyed(d) => SysDropDirectory(live, sps, d);
    }
  }

  // ---- Runs ----------------------------------------------------------------

  ghost predicate Runs(live: set<Block>, sps: Spaces, evs: seq<Event>, live': set<Block>, sps': Spaces)
    decreases |evs|
  {
    if evs == [] then live' == live && sps' == sps
    else Happens(live, sps, evs[0]) && Runs(LiveAfter(live, sps, evs[0]), SpacesAfter(sps, evs[0]), evs[1..], live', sps')
  }

  lemma {:induction false} RunKeeps(live: set<Block>, sps: Spaces, evs: seq<Event>, live': set<Block>, sps': Spaces)
    requires SysOk(live, sps) && Runs(live, sps, evs, live', sps')
    ensures SysOk(live', sps')
    decreases |evs|
  {
    hide SysOk, Occurs, LiveAfter, SpacesAfter;
    if evs != [] {
      EventKeeps(live, sps, evs[0]);
      RunKeeps(LiveAfter(live, sps, evs[0]), SpacesAfter(sps, evs[0]), evs[1..], live', sps');
    }
  }

  lemma {:induction false} RunsOn(live: set<Block>, sps: Spaces, evs: seq<Event>, live1: set<Block>, sps1: Spaces, more: seq<Event>, live2: set<Block>, sps2: Spaces)
    requires Runs(live, sps, evs, live1, sps1) && Runs(live1, sps1, more, live2, sps2)
    ensures Runs(live, sps, evs + more, live2, sps2)
    decreases |evs|
  {
    hide Occurs, Happens, LiveAfter, SpacesAfter;
    if evs == [] {
      assert evs + more == more;
    } else {
      RunsOn(LiveAfter(live, sps, evs[0]), SpacesAfter(sps, evs[0]), evs[1..], live1, sps1, more, live2, sps2);
      assert (evs + more)[1..] == evs[1..] + more;
    }
  }

  lemma NoEvents(live: set<Block>, sps: Spaces)
    ensures Runs(live, sps, [], live, sps)
  {
  }

  lemma RunsOne(live: set<Block>, sps: Spaces, ev: Event)
    requires Happens(live, sps, ev)
    ensures Runs(live, sps, [ev], LiveAfter(live, sps, ev), SpacesAfter(sps, ev))
  {
    hide Occurs, Happens, LiveAfter, SpacesAfter;
    assert [ev][1..] == [];
  }

  /** Runs in which forks are made whatever the source. */
  ghost predicate RunsAny(live: set<Block>, sps: Spaces, evs: seq<Event>, live': set<Block>, sps': Spaces)
    decreases |evs|
  {
    if evs == [] then live' == live && sps' == sps
    else Occurs(live, sps, evs[0]) && RunsAny(LiveAfter(live, sps, evs[0]), SpacesAfter(sps, evs[0]), evs[1..], live', sps')
  }

  lemma {:induction false} RunsAreAny(live: set<Block>, sps: Spaces, evs: seq<Event>, live': set<Block>, sps': Spaces)
    requires Runs(live, sps, evs, live', sps')
    ensures RunsAny(live, sps, evs, live', sps')
    decreases |evs|
  {
    hide Occurs, LiveAfter, SpacesAfter;
    if evs != [] { RunsAreAny(LiveAfter(live, sps, evs[0]), SpacesAfter(sps, evs[0]), evs[1..], live', sps'); }
  }

  lemma {:induction false} AnyOn(live: set<Block>, sps: Spaces, evs: seq<Event>, live1: set<Block>, sps1: Spaces, more: seq<Event>, live2: set<Block>, sps2: Spaces)
    requires RunsAny(live, sps, evs, live1, sps1) && RunsAny(live1, sps1, more, live2, sps2)
    ensures RunsAny(live, sps, evs + more, live2, sps2)
    decreases |evs|
  {
    hide Occurs, LiveAfter, SpacesAfter;
    if evs == [] {
      assert evs + more == more;
    } else {
      AnyOn(LiveAfter(live, sps, evs[0]), SpacesAfter(sps, evs[0]), evs[1..], live1, sps1, more, live2, sps2);
      assert (evs + more)[1..] == evs[1..] + more;
    }
  }

  lemma AnyOne(live: set<Block>, sps: Spaces, ev: Event)
    requires Occurs(live, sps, ev)
    ensures RunsAny(live, sps, [ev], LiveAfter(live, sps, ev), SpacesAfter(sps, ev))
  {
    hide Occurs, LiveAfter, SpacesAfter;
    assert [ev][1..] == [];
  }

  lemma NothingYet()
    ensures SysOk({}, map[])
  {
  }

  /** Cross-process isolation in every run: two directories never translate to the same physical page. */
  lemma EveryRunIsolated(evs: seq<Event>, live: set<Block>, sps: Spaces, d: PageDirectory, e: PageDirectory, p: nat, q: nat)
    requires Runs({}, map[], evs, live, sps) && d in sps && e in sps && d != e && DirOk(sps[d].dir) && DirOk(sps[e].dir)
    requires UserMapped(sps[d].dir, p) && UserMapped(sps[e].dir, q)
    ensures Phys(Pte(sps[d].dir, p)) != Phys(Pte(sps[e].dir, q))
  {
    hide SysOk;
    NothingYet();
    RunKeeps({}, map[], evs, live, sps);
    Isolation(live, sps, d, e, p, q);
  }

  /**
    No leak and no theft in every run: each allocated block is listed by exactly one
    directory, each listed frame is an allocated block, and each mapped user page lies in a
    frame of its own directory.
  */
  lemma EveryRunAccounts(evs: seq<Event>, live: set<Block>, sps: Spaces)
    requires Runs({}, map[], evs, live, sps)
    ensures forall b :: b in live ==> SomeOwner(sps, Addr(b))
    ensures forall d, e, a :: d in sps && e in sps && OwnsAddr(sps[d], a) && OwnsAddr(sps[e], a) ==> d == e
    ensures forall d, k :: d in sps && 0 <= k < |sps[d].frames| ==> Backed(live, sps[d].frames[k])
    ensures forall d :: d in sps ==> DirOk(sps[d].dir) && Owned(sps[d]) && |MappedSet(sps[d].dir)| == SumPages(sps[d].frames)
  {
    hide LiveOk, Backed, OwnsAddr, Addr, Owned, RegionsOk, FramesExclusive, DistinctAddrs, MappedSet, SumPages;
    NothingYet();
    RunKeeps({}, map[], evs, live, sps);
  }

  lemma NoOwnerNoBlock(live: set<Block>)
    requires SysOk(live, map[])
    ensures live == {}
  {
    forall b ensures b !in live { assert !SomeOwner(map[], Addr(b)); }
  }

  /** Once every directory is gone the allocator is as it was at initialisation. */
  lemma AllDestroyedIsInit(n: nat, roots: set<Block>, S: Forest, evs: seq<Event>)
    requires Good(n, roots, S) && Runs({}, map[], evs, Live(S), map[])
    ensures S == InitForest(roots)
  {
    hide LiveOk;
    NothingYet();
    RunKeeps({}, map[], evs, Live(S), map[]);
    NoOwnerNoBlock(Live(S));
    InitGood(n, roots);
    Canonical(n, roots, S, InitForest(roots));
  }

  // ---- The object performs runs --------------------------------------------

  /** The block behind a frame that has just been listed is large enough for it. */
  lemma NewIsFresh(live: set<Block>, sps': Spaces, d: PageDirectory, b: Block, n: nat)
    requires b !in live && SysOk(live + {b}, sps') && d in sps' && |sps'[d].frames| > 0 && sps'[d].frames[0] == Meta(Addr(b), n)
    ensures Fresh(live, b, n)
  {
    hide SpaceOk, LiveOk, Addr, Pow2;
    assert Backed(live + {b}, sps'[d].frames[0]);
    var c :| c in live + {b} && Backs(c, sps'[d].frames[0]);
    SysLive(live + {b}, sps');
    AddrInjective(live + {b}, b, c);
  }

  lemma RunsGrow(live: set<Block>, sps: Spaces, d: PageDirectory, sp: Space, b: Block, s: nat, n: nat)
    requires d in sps && DirOk(sps[d].dir) && DirOk(sp.dir) && Fresh(live, b, n) && Added(sps[d].dir, sp.dir, s, n, Addr(b))
    requires WellMarked(sp.dir, s, n) && sp.frames == [Meta(Addr(b), n)] + sps[d].frames
    ensures Runs(live, sps, [Grown(d, sp, b, s, n)], live + {b}, sps[d := sp])
  {
    hide Fresh, Added, WellMarked, DirOk, Addr;
    RunsOne(live, sps, Grown(d, sp, b, s, n));
  }

  predicate IsGrown(ev: Event, pd: PageDirectory, s: nat, n: nat) { ev.Grown? && ev.d == pd && ev.s == s && ev.n == n }

  /** The allocator manages the same range as before. */
  twostate predicate SameRoots(vmm: Vmm)
    reads vmm.fm
  {
    vmm.fm.roots == old(vmm.fm.roots) && vmm.fm.numBins == old(vmm.fm.numBins)
  }

  method DoNewPages(vmm: Vmm, pd: PageDirectory, base: nat, num: nat) returns (r: int, ghost evs: seq<Event>)
    requires vmm.Valid() && pd in vmm.pds && USER_MEM_START <= base < WORD
    modifies vmm`mem, pd, vmm.fm, vmm.fm.Repr
    ensures vmm.Valid() && vmm.pds == old(vmm.pds) && fresh(vmm.fm.Repr - old(vmm.fm.Repr)) && SameRoots(vmm)
    ensures r == 0 <==> old(vmm.CanMap(pd, base, num))
    ensures |evs| == if r == 0 then 1 else 0
    ensures r == 0 ==> IsGrown(evs[0], pd, base / PAGE_SIZE, num)
    ensures Runs(old(Live(vmm.fm.S)), old(vmm.Sps()), evs, Live(vmm.fm.S), vmm.Sps())
  {
    hide FrameManager.Valid, SysOk, Live, Added, Region, NoneMapped, Addr, Room, Taken, Join, ZeroPages, Vmm.CanMap, Fresh, Occurs, Happens, LiveAfter, SpacesAfter;
    ghost var live, sps := Live(vmm.fm.S), vmm.Sps();
    ghost var b;
    r, b := vmm.NewUserPage(pd, base, num);
    vmm.OnlyChanged(pd);
    if r < 0 {
      evs := [];
      assert sps[pd := sps[pd]] == sps;
    } else {
      var sp := Space(pd.dir, pd.frames);
      assert vmm.Sps()[pd] == sp;
      NewIsFresh(live, vmm.Sps(), pd, b, num);
      evs := [Grown(pd, sp, b, base / PAGE_SIZE, num)];
      RunsGrow(live, sps, pd, sp, b, base / PAGE_SIZE, num);
    }
  }

  /** A region starts at `base`, and its first page is the base of one of the directory's frames. */
  ghost predicate Removable(sp: Space, base: nat)
    requires DirOk(sp.dir) && base < WORD
  {
    base % PAGE_SIZE == 0 && Starts(sp.dir, base / PAGE_SIZE) && OwnsAddr(sp, RemoveFlags(Pte(sp.dir, base / PAGE_SIZE)))
  }

  method DoRemovePages(vmm: Vmm, pd: PageDirectory, base: nat) returns (r: int, ghost evs: seq<Event>)
    requires vmm.Valid() && pd in vmm.pds && base < WORD
    modifies pd, vmm.fm, vmm.fm.Repr
    ensures vmm.Valid() && vmm.pds == old(vmm.pds) && vmm.fm.Repr == old(vmm.fm.Repr) && SameRoots(vmm)
    ensures r == 0 || r == -5 <==> USER_MEM_START <= base && base % PAGE_SIZE == 0 && Starts(old(pd.dir), base / PAGE_SIZE)
    ensures r == 0 <==> USER_MEM_START <= base && Removable(old(Space(pd.dir, pd.frames)), base)
    ensures |evs| == if r == 0 then 1 else 0
    ensures r == 0 ==> evs[0].Shrunk? && evs[0].d == pd && evs[0].s == base / PAGE_SIZE
    ensures Runs(old(Live(vmm.fm.S)), old(vmm.Sps()), evs, Live(vmm.fm.S), vmm.Sps())
  {
    hide FrameManager.Valid, SysOk, Live, Dropped, Region, Addr, Join, Pte, DirOk, Without;
    ghost var live, sps := Live(vmm.fm.S), vmm.Sps();
    ghost var n, b;
    r, n, b := vmm.RemoveUserPage(pd, base);
    vmm.OnlyChanged(pd);
    if r < 0 {
      evs := [];
      assert sps[pd := sps[pd]] == sps;
    } else {
      evs := [Shrunk(pd, Space(pd.dir, pd.frames), b, base / PAGE_SIZE, n, FindFrame(old(pd.frames), Addr(b)))];
      RunsOne(live, sps, evs[0]);
    }
  }

  method DoLoad(vmm: Vmm, pd: PageDirectory, vLow: nat, len: nat) returns (r: int, ghost evs: seq<Event>)
    requires vmm.Valid() && pd in vmm.pds && USER_MEM_START <= vLow && vLow % PAGE_SIZE == 0 && len > 0
    requires vLow + len * PAGE_SIZE <= WORD && NoneMapped(pd.dir, vLow / PAGE_SIZE, len)
    modifies vmm`mem, pd, vmm.fm, vmm.fm.Repr
    ensures vmm.Valid() && vmm.pds == old(vmm.pds) && fresh(vmm.fm.Repr - old(vmm.fm.Repr)) && SameRoots(vmm)
    ensures r == 0 <==> Room(vmm.fm.numBins, vmm.fm.roots, old(vmm.fm.S), len)
    ensures |evs| == if r == 0 then 1 else 0
    ensures r == 0 ==> IsGrown(evs[0], pd, vLow / PAGE_SIZE, len)
    ensures Runs(old(Live(vmm.fm.S)), old(vmm.Sps()), evs, Live(vmm.fm.S), vmm.Sps())
  {
    hide FrameManager.Valid, SysOk, Live, Added, WellMarked, NoneMapped, Addr, Join, Fresh, Occurs, Happens, LiveAfter, SpacesAfter, Room, Taken;
    ghost var live, sps := Live(vmm.fm.S), vmm.Sps();
    ghost var b;
    r, b := vmm.MapSections(pd, vLow, seq(len, _ => USER_WR), seq(len, _ => USER_WR));
    vmm.OnlyChanged(pd);
    if r < 0 {
      evs := [];
      assert sps[pd := sps[pd]] == sps;
    } else {
      var sp := Space(pd.dir, pd.frames);
      assert vmm.Sps()[pd] == sp;
      NewIsFresh(live, vmm.Sps(), pd, b, len);
      evs := [Grown(pd, sp, b, vLow / PAGE_SIZE, len)];
      RunsGrow(live, sps, pd, sp, b, vLow / PAGE_SIZE, len);
    }
  }

  method DoClear(vmm: Vmm, pd: PageDirectory) returns (ghost evs: seq<Event>)
    requires vmm.Valid() && pd in vmm.pds
    modifies pd, vmm.fm, vmm.fm.Repr
    ensures vmm.Valid() && vmm.pds == old(vmm.pds) && vmm.fm.Repr == old(vmm.fm.Repr) && pd.frames == [] && SameRoots(vmm)
    ensures |evs| == 1 && evs[0].Cleared? && evs[0].d == pd
    ensures Runs(old(Live(vmm.fm.S)), old(vmm.Sps()), evs, Live(vmm.fm.S), vmm.Sps())
  {
    hide FrameManager.Valid, SysOk, Live, BlocksOf, HasTable, DirOk;
    ghost var live, sps := Live(vmm.fm.S), vmm.Sps();
    vmm.ClearUserSpace(pd);
    vmm.OnlyChanged(pd);
    evs := [Cleared(pd, Space(pd.dir, pd.frames))];
    RunsOne(live, sps, evs[0]);
  }

  function EmptySpace(): Space { Space(seq(NUM_ENTRIES, _ => Pde(0, [])), []) }

  lemma RunsDestroy(live: set<Block>, sps: Spaces, d: PageDirectory)
    requires d in sps
    ensures Runs(live, sps, [Cleared(d, EmptySpace()), Destroyed(d)], live - BlocksOf(live, sps[d].frames), sps - {d})
  {
    hide BlocksOf, Runs;
    var clear, drop := Cleared(d, EmptySpace()), Destroyed(d);
    var live1, sps1 := LiveAfter(live, sps, clear), SpacesAfter(sps, clear);
    RunsOne(live, sps, clear);
    RunsOne(live1, sps1, drop);
    RunsOn(live, sps, [clear], live1, sps1, [drop], live1, SpacesAfter(sps1, drop));
    assert [clear] + [drop] == [clear, drop] && SpacesAfter(sps1, drop) == sps - {d};
  }

  method DoDestroy(vmm: Vmm, pd: PageDirectory) returns (ghost evs: seq<Event>)
    requires vmm.Valid() && pd in vmm.pds
    modifies vmm`pds, pd, vmm.fm, vmm.fm.Repr
    ensures vmm.Valid() && vmm.pds == old(vmm.pds) - {pd} && vmm.fm.Repr == old(vmm.fm.Repr) && SameRoots(vmm)
    ensures |evs| == 2 && evs[0].Cleared? && evs[0].d == pd && evs[1] == Destroyed(pd)
    ensures Runs(old(Live(vmm.fm.S)), old(vmm.Sps()), evs, Live(vmm.fm.S), vmm.Sps())
  {
    hide FrameManager.Valid, SysOk, Live, BlocksOf, Runs, EmptySpace;
    ghost var live, sps := Live(vmm.fm.S), vmm.Sps();
    vmm.Destroy(pd);
    RunsDestroy(live, sps, pd);
    assert vmm.Sps() == sps - {pd};
    evs := [Cleared(pd, EmptySpace()), Destroyed(pd)];
  }

  method DoCreate(vmm: Vmm, kernel: seq<Pde>) returns (pd: PageDirectory, ghost evs: seq<Event>)
    requires vmm.Valid() && KernelTables(kernel)
    modifies vmm`pds
    ensures vmm.Valid() && fresh(pd) && vmm.pds == old(vmm.pds) + {pd}
    ensures |evs| == 1 && evs[0].Created? && evs[0].d == pd
    ensures pd.frames == [] && forall q: nat :: User(q) ==> !HasTable(pd.dir, q)
    ensures Runs(old(Live(vmm.fm.S)), old(vmm.Sps()), evs, Live(vmm.fm.S), vmm.Sps())
  {
    hide FrameManager.Valid, SysOk, Live;
    ghost var live, sps := Live(vmm.fm.S), vmm.Sps();
    pd := vmm.NewDirectory(kernel);
    ghost var sp := Space(pd.dir, pd.frames);
    evs := [Created(pd, sp)];
    assert vmm.Sps() == sps[pd := sp];
    RunsOne(live, sps, evs[0]);
  }

  /** The copy as a run, an ordinary one exactly when the source is fork-safe. */
  lemma RunsFork(live: set<Block>, sps: Spaces, d: PageDirectory, sp: Space, b: Block, src: PageDirectory)
    requires d in sps && src in sps && d != src && sps[d].frames == [] && DirOk(sps[src].dir) && DirOk(sp.dir)
    requires b !in live && LiveOk(live + {b}) && Backs(b, Meta(Addr(b), |MappedSet(sps[src].dir)|)) && IsFork(sps[src].dir, sp.dir, Addr(b))
    requires sp.frames == [Meta(Addr(b), |MappedSet(sps[src].dir)|)]
    ensures RunsAny(live, sps, [Forked(d, sp, b, src)], live + {b}, sps[d := sp])
    ensures ForkSafe(sps[src].dir) ==> Runs(live, sps, [Forked(d, sp, b, src)], live + {b}, sps[d := sp])
  {
    hide IsFork, ForkSafe, MappedSet, DirOk, Addr, LiveOk, Backs;
    var ev := Forked(d, sp, b, src);
    AnyOne(live, sps, ev);
    if ForkSafe(sps[src].dir) { RunsOne(live, sps, ev); }
  }

  /** The page count of a directory is the number of its mapped user pages. */
  lemma PagesCounted(vmm: Vmm, d: PageDirectory)
    requires vmm.Valid() && d in vmm.pds
    ensures DirOk(d.dir) && d.numPages == |MappedSet(d.dir)|
  {
    hide FrameManager.Valid, LiveOk, AllBacked, AllListed, OneOwner, MappedSet, SumPages, Owned, RegionsOk, FramesExclusive;
    assert d.Quiet() && SpaceOk(vmm.Sps()[d]);
  }

  /**
    Copies `src` into `child`.  The copy is made exactly when memory suffices, and leaves the
    system in order exactly when the source is fork-safe.
  */
  method DoCopy(vmm: Vmm, child: PageDirectory, src: PageDirectory) returns (r: int, ghost evs: seq<Event>)
    requires vmm.Valid() && child in vmm.pds && src in vmm.pds && child != src && child.frames == []
    requires forall q: nat :: User(q) ==> !HasTable(child.dir, q)
    modifies vmm`mem, child, src`dir, vmm.fm, vmm.fm.Repr
    ensures vmm.pds == old(vmm.pds) && fresh(vmm.fm.Repr - old(vmm.fm.Repr)) && SameRoots(vmm)
    ensures DirOk(old(src.dir)) && (r == 0 <==> Room(vmm.fm.numBins, vmm.fm.roots, old(vmm.fm.S), |MappedSet(old(src.dir))|))
    ensures (r == 0 || r == -3) && (vmm.Valid() <==> r < 0 || ForkSafe(old(src.dir)))
    ensures vmm.Valid() <==> SysOk(Live(vmm.fm.S), vmm.Sps())
    ensures |evs| == if r == 0 then 1 else 0
    ensures r == 0 ==> evs[0].Forked? && evs[0].d == child && evs[0].src == src
    ensures RunsAny(old(Live(vmm.fm.S)), old(vmm.Sps()), evs, Live(vmm.fm.S), vmm.Sps())
    ensures vmm.Valid() ==> Runs(old(Live(vmm.fm.S)), old(vmm.Sps()), evs, Live(vmm.fm.S), vmm.Sps())
  {
    hide FrameManager.Valid, SysOk, Live, Addr, Room, Taken, IsFork, ForkSafe, MappedSet, MemCopied, SameContents, Pte, HasTable, SumPages, LiveOk, Backs;
    hide Occurs, Happens, LiveAfter, SpacesAfter, DirOk, Runs, RunsAny;
    ghost var live, sps := Live(vmm.fm.S), vmm.Sps();
    PagesCounted(vmm, src);
    ghost var b;
    r, b := vmm.DeepCopy(child, src);
    if r < 0 {
      evs := [];
      assert sps[child := sps[child]] == sps;
      NoEvents(live, sps);
      RunsAreAny(live, sps, [], live, sps);
    } else {
      var sp := Space(child.dir, child.frames);
      evs := [Forked(child, sp, b, src)];
      RunsFork(live, sps, child, sp, b, src);
    }
  }

  /**
    A new directory, then the copy; the child stays empty when memory does not suffice.
    `broken` tells that the copy was made of a source that is not fork-safe.
  */
  method DoFork(vmm: Vmm, src: PageDirectory, kernel: seq<Pde>) returns (child: PageDirectory, broken: bool, ghost evs: seq<Event>)
    requires vmm.Valid() && src in vmm.pds && KernelTables(kernel)
    modifies vmm, src`dir, vmm.fm, vmm.fm.Repr
    ensures fresh(child) && vmm.pds == old(vmm.pds) + {child} && fresh(vmm.fm.Repr - old(vmm.fm.Repr)) && SameRoots(vmm)
    ensures 1 <= |evs| <= 2 && evs[0].Created? && evs[0].d == child
    ensures DirOk(old(src.dir)) && (|evs| == 2 <==> Room(vmm.fm.numBins, vmm.fm.roots, old(vmm.fm.S), |MappedSet(old(src.dir))|))
    ensures |evs| == 2 ==> evs[1].Forked? && evs[1].d == child && evs[1].src == src
    ensures broken <==> |evs| == 2 && !ForkSafe(old(src.dir))
    ensures broken <==> !vmm.Valid()
    ensures vmm.Valid() <==> SysOk(Live(vmm.fm.S), vmm.Sps())
    ensures RunsAny(old(Live(vmm.fm.S)), old(vmm.Sps()), evs, Live(vmm.fm.S), vmm.Sps())
    ensures !broken ==> Runs(old(Live(vmm.fm.S)), old(vmm.Sps()), evs, Live(vmm.fm.S), vmm.Sps())
  {
    hide FrameManager.Valid, SysOk, Live, HasTable, LowestIsAll, Runs, RunsAny, Occurs, Happens, LiveAfter, SpacesAfter, Room, MappedSet, ForkSafe, DirOk;
    ghost var live, sps := Live(vmm.fm.S), vmm.Sps();
    KnowsRegions(vmm, src);
    var safe := LowestIsAll(src.dir);
    ghost var made;
    child, made := DoCreate(vmm, kernel);
    ghost var live1, sps1 := Live(vmm.fm.S), vmm.Sps();
    var r;
    ghost var copied;
    r, copied := DoCopy(vmm, child, src);
    evs := made + copied;
    broken := r == 0 && !safe;
    RunsAreAny(live, sps, made, live1, sps1);
    AnyOn(live, sps, made, live1, sps1, copied, Live(vmm.fm.S), vmm.Sps());
    if vmm.Valid() { RunsOn(live, sps, made, live1, sps1, copied, Live(vmm.fm.S), vmm.Sps()); }
  }

  lemma KnowsRegions(vmm: Vmm, d: PageDirectory)
    requires vmm.Valid() && d in vmm.pds
    ensures DirOk(d.dir) && (ForkSafe(d.dir) <==> LowestIsAll(d.dir))
  {
    hide FrameManager.Valid, LiveOk, AllBacked, AllListed, OneOwner, MappedSet, SumPages, Owned, RegionsOk, FramesExclusive, ForkSafe, LowestIsAll;
    assert SpaceOk(vmm.Sps()[d]);
    SafeByLowest(d.dir);
  }
}
