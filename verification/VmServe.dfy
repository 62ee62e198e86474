/**
  Histories of system calls: any number of processes ask for memory, give it back, load, fork,
  clear and exit in any order, and for every call it is said exactly when it has an effect and
  which one.
*/
module VmServe {
  import opened Machine
  import opened Blocks
  import opened BuddyForest
  import opened FrameIndex
  import opened FrameAllocator
  import opened Paging
  import opened PageDirectories
  import opened Spaces
  import opened Fork
  import opened VirtualMemory
  import opened VmRuns

  /** A call by process `i`, counted among the processes that exist; loading is part of `exec`. */
  datatype Call =
    | Boot
    | NewPages(i: nat, base: nat, num: nat)
    | RemovePages(i: nat, base: nat)
    | Load(i: nat, vLow: nat, len: nat)
    | ForkFrom(i: nat)
    | Clear(i: nat)
    | Exit(i: nat)

  /** The allocator's forest, the address spaces and the processes between two calls. */
  datatype Stage = Stage(S: Forest, sps: Spaces, procs: seq<PageDirectory>)

  /** What a call by directory `pd` may do; a call without effect does nothing. */
  predicate Fits(call: Call, pd: PageDirectory, evs: seq<Event>)
    requires !call.Boot?
  {
    match call
    case NewPages(_, base, num) => evs == [] || (|evs| == 1 && IsGrown(evs[0], pd, base / PAGE_SIZE, num))
    case RemovePages(_, base) => evs == [] || (|evs| == 1 && evs[0].Shrunk? && evs[0].d == pd && evs[0].s == base / PAGE_SIZE)
    case Load(_, vLow, len) => evs == [] || (|evs| == 1 && IsGrown(evs[0], pd, vLow / PAGE_SIZE, len))
    case ForkFrom(_) => evs != [] && (evs[0].Created? && (|evs| == 1 || (|evs| == 2 && evs[1].Forked? && evs[1].d == evs[0].d && evs[1].src == pd)))
    case Clear(_) => |evs| == 1 && evs[0].Cleared? && evs[0].d == pd
    case Exit(_) => |evs| == 2 && evs[0].Cleared? && evs[0].d == pd && evs[1] == Destroyed(pd)
  }

  /** When a call by a process with space `sp` has an effect. */
  ghost predicate Works(n: nat, roots: set<Block>, S: Forest, sp: Space, call: Call)
    requires !call.Boot? && DirOk(sp.dir)
  {
    match call
    case NewPages(_, base, num) =>
      && USER_MEM_START <= base < WORD && base % PAGE_SIZE == 0 && 0 < num <= 0xFFFF && base + num * PAGE_SIZE <= WORD
      && NoneMapped(sp.dir, base / PAGE_SIZE, num) && Room(n, roots, S, num)
    case RemovePages(_, base) => USER_MEM_START <= base < WORD && Removable(sp, base)
    case Load(_, vLow, len) =>
      && USER_MEM_START <= vLow && vLow % PAGE_SIZE == 0 && len > 0 && vLow + len * PAGE_SIZE <= WORD
      && NoneMapped(sp.dir, vLow / PAGE_SIZE, len) && Room(n, roots, S, len)
    case _ => true
  }

  /** A fork gets the memory of its parent, and not only an empty directory. */
  ghost predicate Copies(n: nat, roots: set<Block>, S: Forest, sp: Space)
    requires DirOk(sp.dir)
  {
    Room(n, roots, S, |MappedSet(sp.dir)|)
  }

  function Others(procs: seq<PageDirectory>, pd: PageDirectory): seq<PageDirectory> {
    if procs == [] then []
    else Others(procs[..|procs| - 1], pd) + if procs[|procs| - 1] == pd then [] else [procs[|procs| - 1]]
  }

  function ProcsAfter(call: Call, pd: PageDirectory, procs: seq<PageDirectory>, evs: seq<Event>): seq<PageDirectory> {
    if call.ForkFrom? && evs != [] then procs + [evs[0].d] else if call.Exit? then Others(procs, pd) else procs
  }

  /** The call of process `pd` is answered right. */
  ghost predicate AnsweredBy(n: nat, roots: set<Block>, S: Forest, sp: Space, pd: PageDirectory, call: Call, evs: seq<Event>)
    requires !call.Boot? && DirOk(sp.dir)
  {
    Fits(call, pd, evs) && (evs != [] <==> Works(n, roots, S, sp, call)) && (call.ForkFrom? ==> (|evs| == 2 <==> Copies(n, roots, S, sp)))
  }

  /** The call turns one stage into the other, with these events. */
  ghost predicate Answered(n: nat, roots: set<Block>, st: Stage, call: Call, evs: seq<Event>, st': Stage) {
    && RunsAny(Live(st.S), st.sps, evs, Live(st'.S), st'.sps)
    && if call.Boot? then |evs| == 1 && evs[0].Created? && st'.procs == st.procs + [evs[0].d]
       else if call.i >= |st.procs| then evs == [] && st' == st
       else
         var pd := st.procs[call.i];
         && pd in st.sps && DirOk(st.sps[pd].dir) && AnsweredBy(n, roots, st.S, st.sps[pd], pd, call, evs)
         && st'.procs == ProcsAfter(call, pd, st.procs, evs)
  }

  function Flat(log: seq<seq<Event>>): seq<Event> {
    if log == [] then [] else Flat(log[..|log| - 1]) + log[|log| - 1]
  }

  lemma FlatNone()
    ensures Flat([]) == []
  {
  }

  lemma FlatSnoc(log: seq<seq<Event>>, more: seq<Event>)
    ensures Flat(log + [more]) == Flat(log) + more
  {
    assert (log + [more])[..|log|] == log;
  }

  // ---- The object ----------------------------------------------------------

  function Members(procs: seq<PageDirectory>): set<PageDirectory> { set d | d in procs }

  lemma OneMore(procs: seq<PageDirectory>, pd: PageDirectory)
    ensures Members(procs + [pd]) == Members(procs) + {pd}
  {
  }

  lemma {:induction false} OneLess(procs: seq<PageDirectory>, pd: PageDirectory)
    ensures Members(Others(procs, pd)) == Members(procs) - {pd}
  {
    hide Members;
    if procs == [] {
      NoMembers();
    } else {
      var k := |procs| - 1;
      assert procs == procs[..k] + [procs[k]];
      OneLess(procs[..k], pd);
      OneMore(procs[..k], procs[k]);
      OneMore(Others(procs[..k], pd), procs[k]);
      assert Others(procs[..k], pd) + [] == Others(procs[..k], pd);
    }
  }

  lemma NoMembers()
    ensures Members([]) == {}
  {
  }

  method DropProcess(procs: seq<PageDirectory>, pd: PageDirectory) returns (rest: seq<PageDirectory>)
    ensures rest == Others(procs, pd)
  {
    rest := [];
    for i := 0 to |procs|
      invariant rest == Others(procs[..i], pd)
    {
      assert procs[..i + 1][..i] == procs[..i];
      if procs[i] != pd { rest := rest + [procs[i]]; }
    }
    assert procs[..|procs|] == procs;
  }

  ghost predicate Listed(vmm: Vmm, procs: seq<PageDirectory>)
    reads vmm`pds
  {
    vmm.pds == Members(procs)
  }

  /** Serves a call other than a fork. */
  method ServeOne(vmm: Vmm, call: Call, pd: PageDirectory, procs: seq<PageDirectory>)
    returns (procs': seq<PageDirectory>, ghost evs: seq<Event>)
    requires vmm.Valid() && pd in vmm.pds && !call.Boot? && !call.ForkFrom? && Listed(vmm, procs)
    modifies vmm, pd, vmm.fm, vmm.fm.Repr
    ensures vmm.Valid() && Listed(vmm, procs') && vmm.pds <= old(vmm.pds) && fresh(vmm.fm.Repr - old(vmm.fm.Repr)) && SameRoots(vmm)
    ensures DirOk(old(pd.dir)) && AnsweredBy(vmm.fm.numBins, vmm.fm.roots, old(vmm.fm.S), old(Space(pd.dir, pd.frames)), pd, call, evs)
    ensures procs' == ProcsAfter(call, pd, procs, evs)
    ensures Runs(old(Live(vmm.fm.S)), old(vmm.Sps()), evs, Live(vmm.fm.S), vmm.Sps())
  {
    hide FrameManager.Valid, SysOk, Live, NoneMapped, Starts, Runs, IsGrown, Vmm.Sps, Room, MappedSet, Removable, Others, Members;
    procs', evs := procs, [];
    NoEvents(Live(vmm.fm.S), vmm.Sps());
    PagesCounted(vmm, pd);
    var r;
    match call {
      case NewPages(_, base, num) =>
        if USER_MEM_START <= base < WORD { r, evs := DoNewPages(vmm, pd, base, num); }
      case RemovePages(_, base) =>
        if base < WORD { r, evs := DoRemovePages(vmm, pd, base); }
      case Load(_, vLow, len) =>
        if USER_MEM_START <= vLow && vLow % PAGE_SIZE == 0 && vLow + len * PAGE_SIZE <= WORD && len > 0 {
          var mapped := vmm.AnyMapped(pd, vLow, len);
          if !mapped { r, evs := DoLoad(vmm, pd, vLow, len); }
        }
      case Clear(_) => evs := DoClear(vmm, pd);
      case Exit(_) =>
        evs := DoDestroy(vmm, pd);
        OneLess(procs, pd);
        procs' := DropProcess(procs, pd);
    }
  }

  /** No two directories translate user pages to the same physical page. */
  ghost predicate SpacesApart(vmm: Vmm)
    requires forall d :: d in vmm.pds ==> DirOk(d.dir)
    reads vmm`pds, vmm.pds
  {
    forall d, e, p: nat, q: nat :: d in vmm.pds && e in vmm.pds && d != e && UserMapped(d.dir, p) && UserMapped(e.dir, q)
      ==> Phys(Pte(d.dir, p)) != Phys(Pte(e.dir, q))
  }

  lemma Apart(vmm: Vmm)
    requires vmm.Valid()
    ensures SpacesApart(vmm)
  {
    hide FrameManager.Valid, SysOk, Live, Phys, Pte;
    forall d, e, p: nat, q: nat | d in vmm.pds && e in vmm.pds && d != e && UserMapped(d.dir, p) && UserMapped(e.dir, q)
      ensures Phys(Pte(d.dir, p)) != Phys(Pte(e.dir, q))
    {
      Isolation(Live(vmm.fm.S), vmm.Sps(), d, e, p, q);
    }
  }

  /** User code gets at user pages only, and none of them lies in the kernel's memory, which every directory maps to itself. */
  ghost predicate KernelApart(vmm: Vmm)
    requires forall d :: d in vmm.pds ==> DirOk(d.dir)
    reads vmm`pds, vmm.pds
  {
    forall d, p: nat :: d in vmm.pds && p < NUM_PAGES ==> PageApart(d.dir, p)
  }

  ghost predicate PageApart(dir: Dir, p: nat)
    requires DirOk(dir) && p < NUM_PAGES
  {
    if User(p) then Mapped(dir, p) ==> Phys(Pte(dir, p)) >= FIRST_USER_PAGE
    else !UserReads(dir, p) && (Mapped(dir, p) <==> p != 0) && (p != 0 ==> Phys(Pte(dir, p)) == p)
  }

  lemma KernelKept(vmm: Vmm)
    requires vmm.Valid()
    ensures KernelApart(vmm)
  {
    hide FrameManager.Valid, SysOk, Live, Phys, Pte, KernelMap, UserReads;
    forall d, p: nat | d in vmm.pds && p < NUM_PAGES ensures PageApart(d.dir, p) {
      if !User(p) {
        KernelGuarded(d.dir, p);
      } else if Mapped(d.dir, p) {
        KernelMemory(Live(vmm.fm.S), vmm.Sps(), d, p);
      }
    }
  }

  lemma AllGone(vmm: Vmm, evs: seq<Event>)
    requires vmm.Valid() && vmm.pds == {} && Runs({}, map[], evs, Live(vmm.fm.S), vmm.Sps())
    ensures vmm.fm.S == InitForest(vmm.fm.roots)
  {
    hide FrameManager.Valid, SysOk, Live, Runs, Good, InitForest;
    vmm.fm.ValidFacts();
    assert vmm.Sps() == map[];
    AllDestroyedIsInit(vmm.fm.numBins, vmm.fm.roots, vmm.fm.S, evs);
  }

  /** Serves a fork; `broken` tells that it was made of a source that is not fork-safe. */
  method ServeFork(vmm: Vmm, call: Call, pd: PageDirectory, procs: seq<PageDirectory>, kernel: seq<Pde>)
    returns (procs': seq<PageDirectory>, broken: bool, ghost evs: seq<Event>)
    requires vmm.Valid() && pd in vmm.pds && call.ForkFrom? && Listed(vmm, procs) && KernelTables(kernel)
    modifies vmm, pd, vmm.fm, vmm.fm.Repr
    ensures Listed(vmm, procs') && fresh(vmm.pds - old(vmm.pds)) && fresh(vmm.fm.Repr - old(vmm.fm.Repr)) && SameRoots(vmm)
    ensures DirOk(old(pd.dir)) && AnsweredBy(vmm.fm.numBins, vmm.fm.roots, old(vmm.fm.S), old(Space(pd.dir, pd.frames)), pd, call, evs)
    ensures procs' == ProcsAfter(call, pd, procs, evs)
    ensures broken <==> |evs| == 2 && !ForkSafe(old(pd.dir))
    ensures if broken then !SysOk(Live(vmm.fm.S), vmm.Sps()) else vmm.Valid()
    ensures RunsAny(old(Live(vmm.fm.S)), old(vmm.Sps()), evs, Live(vmm.fm.S), vmm.Sps())
    ensures !broken ==> Runs(old(Live(vmm.fm.S)), old(vmm.Sps()), evs, Live(vmm.fm.S), vmm.Sps())
  {
    hide FrameManager.Valid, SysOk, Live, Runs, RunsAny, Room, MappedSet, ForkSafe, KernelTables, Members, DirOk, Vmm.Sps;
    var child;
    child, broken, evs := DoFork(vmm, pd, kernel);
    procs' := procs + [child];
    OneMore(procs, child);
  }

  /** The last call was a fork of a source that is not fork-safe. */
  ghost predicate Unsafe(st: Stage, call: Call) {
    && call.ForkFrom? && call.i < |st.procs| && st.procs[call.i] in st.sps
    && DirOk(st.sps[st.procs[call.i]].dir) && !ForkSafe(st.sps[st.procs[call.i]].dir)
  }

  /** Serves one call of any kind; `broken` tells that it was such a fork, and that it was made. */
  method ServeAny(vmm: Vmm, call: Call, procs: seq<PageDirectory>, kernel: seq<Pde>)
    returns (procs': seq<PageDirectory>, broken: bool, ghost evs: seq<Event>)
    requires vmm.Valid() && Listed(vmm, procs) && KernelTables(kernel)
    modifies vmm, vmm.pds, vmm.fm, vmm.fm.Repr
    ensures Listed(vmm, procs') && fresh(vmm.pds - old(vmm.pds)) && fresh(vmm.fm.Repr - old(vmm.fm.Repr)) && SameRoots(vmm)
    ensures Answered(vmm.fm.numBins, vmm.fm.roots, Stage(old(vmm.fm.S), old(vmm.Sps()), procs), call, evs, Stage(vmm.fm.S, vmm.Sps(), procs'))
    ensures broken <==> |evs| == 2 && Unsafe(Stage(old(vmm.fm.S), old(vmm.Sps()), procs), call)
    ensures if broken then !SysOk(Live(vmm.fm.S), vmm.Sps()) else vmm.Valid()
    ensures !broken ==> Runs(old(Live(vmm.fm.S)), old(vmm.Sps()), evs, Live(vmm.fm.S), vmm.Sps())
  {
    hide FrameManager.Valid, SysOk, Live, Runs, RunsAny, ForkSafe, KernelTables, HasTable, Members, DirOk, AnsweredBy, ProcsAfter;
    ghost var live, sps := Live(vmm.fm.S), vmm.Sps();
    broken := false;
    if call.Boot? {
      var pd;
      pd, evs := DoCreate(vmm, kernel);
      procs' := procs + [pd];
      OneMore(procs, pd);
    } else if call.i >= |procs| {
      procs', evs := procs, [];
      NoEvents(live, sps);
    } else {
      var pd := procs[call.i];
      IsMember(procs, call.i);
      assert pd in vmm.pds && vmm.Sps()[pd] == Space(pd.dir, pd.frames);
      if call.ForkFrom? {
        procs', broken, evs := ServeFork(vmm, call, pd, procs, kernel);
      } else {
        procs', evs := ServeOne(vmm, call, pd, procs);
      }
    }
    if !broken { RunsAreAny(live, sps, evs, Live(vmm.fm.S), vmm.Sps()); }
  }

  lemma IsMember(procs: seq<PageDirectory>, i: nat)
    requires i < |procs|
    ensures procs[i] in Members(procs)
  {
  }

  /**
    Any history of calls by any number of processes, up to the first fork of a source that is
    not fork-safe, if there is one.  Each call has an effect exactly when it can, in the stage
    the earlier ones left.  Unless that fork was made all events together are an ordinary run
    from the state in which nothing is allocated, so the address spaces stay apart and nothing
    is lost; once it is made the system is out of order.
  */
  method Serve(vmm: Vmm, calls: seq<Call>) returns (broken: bool, ghost log: seq<seq<Event>>, ghost trace: seq<Stage>)
    requires vmm.Valid() && vmm.pds == {}
    modifies vmm, vmm.fm, vmm.fm.Repr
    ensures SameRoots(vmm) && |log| <= |calls| && |trace| == |log| + 1 && trace[0] == Stage(old(vmm.fm.S), map[], [])
    ensures trace[|log|].S == vmm.fm.S && trace[|log|].sps == vmm.Sps()
    ensures forall k :: 0 <= k < |log| ==> Answered(vmm.fm.numBins, vmm.fm.roots, trace[k], calls[k], log[k], trace[k + 1])
    ensures forall k :: 0 <= k < |log| ==> (broken && k == |log| - 1 <==> |log[k]| == 2 && Unsafe(trace[k], calls[k]))
    ensures if broken then |log| > 0 && !SysOk(Live(vmm.fm.S), vmm.Sps()) else |log| == |calls| && vmm.Valid()
    ensures !broken ==> Runs({}, map[], Flat(log), Live(vmm.fm.S), vmm.Sps()) && SpacesApart(vmm) && KernelApart(vmm)
    ensures !broken && vmm.pds == {} ==> vmm.fm.S == InitForest(vmm.fm.roots)
  {
    hide FrameManager.Valid, SysOk, Live, Runs, Answered, KernelTables, Unsafe, SpacesApart, KernelApart, Flat, Members;
    var kernel := InitKernel();
    var procs: seq<PageDirectory> := [];
    broken, log, trace := false, [], [Stage(vmm.fm.S, vmm.Sps(), [])];
    NoOwnerNoBlock(Live(vmm.fm.S));
    NoEvents(Live(vmm.fm.S), vmm.Sps());
    NoMembers();
    FlatNone();
    var k := 0;
    while k < |calls| && !broken
      invariant k == |log| <= |calls| && SameRoots(vmm) && Listed(vmm, procs) && fresh(vmm.pds) && fresh(vmm.fm.Repr - old(vmm.fm.Repr))
      invariant |trace| == k + 1 && trace[0] == Stage(old(vmm.fm.S), map[], []) && trace[k] == Stage(vmm.fm.S, vmm.Sps(), procs)
      invariant forall j :: 0 <= j < k ==> Answered(vmm.fm.numBins, vmm.fm.roots, trace[j], calls[j], log[j], trace[j + 1])
      invariant forall j :: 0 <= j < k ==> (broken && j == k - 1 <==> |log[j]| == 2 && Unsafe(trace[j], calls[j]))
      invariant if broken then k > 0 && !SysOk(Live(vmm.fm.S), vmm.Sps()) else vmm.Valid() && Runs({}, map[], Flat(log), Live(vmm.fm.S), vmm.Sps())
    {
      ghost var live, sps := Live(vmm.fm.S), vmm.Sps();
      ghost var more;
      procs, broken, more := ServeAny(vmm, calls[k], procs, kernel);
      if !broken { RunsOn({}, map[], Flat(log), live, sps, more, Live(vmm.fm.S), vmm.Sps()); }
      FlatSnoc(log, more);
      log, trace := log + [more], trace + [Stage(vmm.fm.S, vmm.Sps(), procs)];
      k := k + 1;
    }
    if !broken {
      Apart(vmm);
      KernelKept(vmm);
      if vmm.pds == {} { AllGone(vmm, Flat(log)); }
    }
  }
}
