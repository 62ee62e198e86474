/**
  The frame manager: `frame_t` records linked by buddy and parent pointers, an array of
  bins of free frames, and three tables.  Ghost state names the block behind every frame;
  the invariant says that frames, bins and tables all describe one and the same forest.
  Every place where the kernel panics on a failed lookup is an `assert false`.
*/
module FrameAllocator {
  import opened Machine
  import opened Lists
  import opened Blocks
  import opened BuddyForest
  import opened FrameIndex

  /** Index of the first non-empty bin at or above `i`. */
  function FirstBin(bins: seq<seq<Frame>>, i: nat): (k: nat)
    requires i <= |bins|
    ensures i <= k <= |bins|
    ensures forall x :: i <= x < k ==> bins[x] == []
    ensures k < |bins| ==> bins[k] != []
    decreases |bins| - i
  {
    if i == |bins| || bins[i] != [] then i else FirstBin(bins, i + 1)
  }

  lemma HalvesInRange(b: Block)
    requires b.i > 0 && Addr(b) + PAGE_SIZE * Pow2(b.i) <= WORD
    ensures Addr(Left(b)) == Addr(b) && Pow2(b.i) / 2 == Pow2(b.i - 1)
    ensures Wrap(Addr(b) + Pow2(b.i) / 2 * PAGE_SIZE) == Addr(Right(b))
  {
    FirstLeft(b);
    assert Addr(Right(b)) == Addr(b) + Pow2(b.i - 1) * PAGE_SIZE < WORD;
  }

  predicate Aligned(pages: nat, m: nat, i: nat) { pages == m * Pow2(i) }

  lemma HalveOrder(pages: nat, m: nat, i: nat)
    requires Aligned(pages, m, i)
    ensures Pow2(0) == 1
    ensures i > 0 ==> Pow2(i) == 2 * Pow2(i - 1) && Aligned(pages, 2 * m, i - 1)
  {
    if i > 0 { MulAssoc(m, 2, Pow2(i - 1)); }
  }

  /** The order of the smallest power of two that holds `num` pages. */
  function OrderFor(num: nat): nat
    requires num > 0
  {
    if num == 1 then 0 else 1 + OrderFor((num + 1) / 2)
  }

  lemma {:induction false} OrderForFits(num: nat)
    requires num > 0
    ensures num <= Pow2(OrderFor(num)) < 2 * num
  {
    if num > 1 { OrderForFits((num + 1) / 2); }
  }

  /** Best fit: `OrderFor` is the only order whose block holds `num` pages and wastes less than half. */
  lemma OrderUnique(num: nat, j: nat)
    requires num > 0
    ensures num <= Pow2(OrderFor(num)) < 2 * num
    ensures num <= Pow2(j) && (j == 0 || Pow2(j - 1) < num) ==> j == OrderFor(num)
  {
    var o := OrderFor(num);
    OrderForFits(num);
    if j < o { PowMono(j, o); }
    if o < j { PowMono(o, j - 1); }
  }

  /** The search for the right sized bin. */
  method FindBin(num: nat, numBins: nat) returns (j: nat)
    requires 0 < numBins && 0 < num <= Pow2(numBins - 1)
    ensures j < numBins && j == OrderFor(num)
  {
    j := numBins - 1;
    while j > 0
      invariant 0 <= j < numBins && num <= Pow2(j)
    {
      if num <= Pow2(j) && num > Pow2(j - 1) { break; }
      j := j - 1;
    }
    OrderUnique(num, j);
  }

  /** What holds before and after the last step of an allocation. */
  lemma CarveSteps(n: nat, roots: set<Block>, S: Forest, c: Block, j: nat)
    requires Good(n, roots, S) && Has(S, c, Free) && j <= c.i
    ensures var T, b := SplitDown(S, c, j), Leftmost(c, j);
      Has(T, b, Free) && Rooted(n, roots, T[b := Alloc]) && T[b := Alloc] == Carve(S, c, j)
    ensures Good(n, roots, Carve(S, c, j))
    ensures Leftmost(c, j) !in Live(S) && Live(Carve(S, c, j)) == Live(S) + {Leftmost(c, j)}
  {
    CarveGood(n, roots, S, c, j);
    CoalescedWeaken(S, {Par(c)});
    SplitDownGood(n, roots, S, c, j);
  }

  /** A bin at or above `j` is non-empty exactly when an aligned range of order `j` is wholly free. */
  lemma FreeBinIffRange(ix: Index, j: nat)
    requires IndexOk(ix) && Good(ix.n, ix.roots, ix.S) && j < ix.n
    ensures FirstBin(ix.bins, j) < ix.n <==> exists a: Block :: a.i == j && WhollyFree(ix.roots, ix.S, a)
  {
    Completeness(ix.n, ix.roots, ix.S, j);
    var k := FirstBin(ix.bins, j);
    if k < ix.n {
      var b := FreeInBins(ix, k, ix.bins[k][0]);
    }
    forall c | c in ix.S && ix.S[c].Free? && j <= c.i ensures k < ix.n {
      assert Has(ix.S, c, Free);
      assert ix.F[c] in ix.bins[c.i];
    }
  }

  lemma LiveIsAlloc(S: Forest, b: Block)
    requires b in Live(S)
    ensures Enabled(S, FreeOp(b))
  {
  }

  lemma AllocTable(ix: Index, a: nat)
    requires IndexOk(ix)
    ensures a in ix.allocs <==> exists b :: b in Live(ix.S) && Addr(b) == a
    ensures a in ix.allocs ==> exists b :: b in Live(ix.S) && Addr(b) == a && b in ix.F && ix.F[b] == ix.allocs[a]
  {
    if a in ix.allocs {
      var b :| Has(ix.S, b, Alloc) && Key(Alloc, b) == a;
      assert b in Live(ix.S) && b in ix.F && ix.F[b] == ix.allocs[a];
    }
    forall b | b in Live(ix.S) && Addr(b) == a ensures a in ix.allocs {
      assert Has(ix.S, b, Alloc) && Key(Alloc, b) == a;
    }
  }

  /** The head of the first non-empty bin is a best fit. */
  lemma FirstBinFits(ix: Index, j: nat, c: Block)
    requires IndexOk(ix) && j < ix.n == |ix.bins| && FirstBin(ix.bins, j) < ix.n && c in ix.F && ix.F[c] == ix.bins[FirstBin(ix.bins, j)][0]
    ensures BestFit(ix.S, j, c)
  {
    hide TableOk, Rooted;
    var k := FirstBin(ix.bins, j);
    var b := FreeInBins(ix, k, ix.bins[k][0]);
    assert b == c;
    forall d | d in ix.S && ix.S[d].Free? && j <= d.i ensures c.i <= d.i {
      assert Has(ix.S, d, Free) && ix.F[d] in ix.bins[d.i];
    }
  }

  datatype Request = Get(num: nat) | Put(pAddr: nat)

  /**
    `code` and, for a successful `Get`, the address `a` are the right answer to `req` in forest
    `S`, and `T` is the right forest afterwards.
  */
  ghost predicate Answers(n: nat, roots: set<Block>, S: Forest, req: Request, code: int, a: nat, T: Forest)
    requires n > 0
  {
    match req
    case Get(num) =>
      && (code == 0 || code == -1 || code == -2) && (code < 0 ==> T == S)
      && (code == -1 <==> num == 0 || num > Pow2(n - 1))
      && (code == -2 <==> 0 < num <= Pow2(n - 1) && !exists a: Block :: a.i == OrderFor(num) && WhollyFree(roots, S, a))
      && (code == 0 ==> exists c :: Cut(S, OrderFor(num), c, a, T))
    case Put(pAddr) =>
      && (code == 0 || code == -2) && (code < 0 ==> T == S)
      && (code == 0 <==> exists b :: b in Live(S) && Addr(b) == pAddr)
      && (code == 0 ==> exists b :: Enabled(S, FreeOp(b)) && Addr(b) == pAddr && T == Join(n, roots, S, b))
  }

  /** The block at address `a` is cut from the left of `c`, a best fit. */
  ghost predicate Cut(S: Forest, j: nat, c: Block, a: nat, T: Forest) {
    BestFit(S, j, c) && T == Carve(S, c, j) && a == Addr(Leftmost(c, j))
  }

  /** The frame counts of initialisation: usable frames above the kernel, capped by 32-bit addressing. */
  function UsableFrames(machineFrames: nat): (n: nat)
    requires machineFrames >= USER_MEM_START / PAGE_SIZE
    ensures USER_MEM_START + PAGE_SIZE * n <= WORD && n <= machineFrames - USER_MEM_START / PAGE_SIZE
    ensures n < machineFrames - USER_MEM_START / PAGE_SIZE ==> USER_MEM_START + PAGE_SIZE * n == WORD
  {
    var n := machineFrames - USER_MEM_START / PAGE_SIZE;
    var addressable := (0xFFFF_FFFF - USER_MEM_START + 1) / PAGE_SIZE;
    if n < addressable then n else addressable
  }

  datatype Boot = Ready(fm: FrameManager) | NoMemory | Panic

  /** Builds the allocator over all usable frames; panics when there is not a single one. */
  method Init(numBins: nat, machineFrames: nat) returns (boot: Boot)
    requires 1 <= numBins <= 31
    ensures boot.NoMemory? <==> machineFrames < USER_MEM_START / PAGE_SIZE
    ensures boot.Panic? <==> machineFrames == USER_MEM_START / PAGE_SIZE
    ensures boot.Ready? ==> fresh(boot.fm) && fresh(boot.fm.Repr) && boot.fm.Valid() && boot.fm.numBins == numBins
    ensures boot.Ready? ==> boot.fm.total == UsableFrames(machineFrames) && boot.fm.S == InitForest(boot.fm.roots)
  {
    if machineFrames < USER_MEM_START / PAGE_SIZE { return NoMemory; }
    var fm := new FrameManager(numBins);
    var r := fm.InitUserSpace(UsableFrames(machineFrames));
    if r < 0 { return Panic; }
    return Ready(fm);
  }

  class FrameManager {
    var allocs: map<int, Frame>
    var deallocs: map<int, Frame>
    var parents: map<int, Frame>
    var bins: seq<seq<Frame>>
    var numBins: nat

    ghost var roots: set<Block>
    ghost var total: nat
    ghost var S: Forest
    ghost var F: map<Block, Frame>
    ghost var Repr: set<Frame>

    /** The frame record of block `b` says what the forest says. */
    ghost predicate FrameOk(b: Block)
      requires b in F
      reads this, F[b]
    {
      && F[b] in Repr && b in S && F[b].status == S[b]
      && F[b].addr == Addr(b) && F[b].numPages == Pow2(b.i) && F[b].i == b.i
      && (b in roots ==> F[b].buddy == null && F[b].parent == null)
      && (b !in roots ==> Buddy(b) in F && F[b].buddy == F[Buddy(b)] && Par(b) in F && F[b].parent == F[Par(b)])
    }

    ghost function Ix(): Index
      reads this
    {
      Index(numBins, roots, total, S, F, allocs, deallocs, parents, bins)
    }

    ghost predicate FramesOk()
      reads this, Repr
    {
      forall b {:trigger FrameOk(b)} :: b in F ==> F[b] in Repr && FrameOk(b)
    }

    /** Index agreement: records, tables and bins all describe the forest `S`. */
    ghost predicate Linked()
      reads this, Repr
    {
      IndexOk(Ix()) && FramesOk()
    }

    ghost predicate Valid()
      reads this, Repr
    {
      Linked() && Good(numBins, roots, S)
    }

    lemma ValidFacts()
      requires Valid()
      ensures 1 <= numBins <= 31 && Good(numBins, roots, S) && Rooted(numBins, roots, S)
    {
    }

    /** A manager with empty tables and bins, before any frame exists. */
    constructor (nb: nat)
      requires 1 <= nb <= 31
      ensures Valid() && numBins == nb && total == 0 && S == map[] && roots == {} && bins == seq(nb, _ => [])
      ensures Repr == {}
    {
      allocs, deallocs, parents := map[], map[], map[];
      bins, numBins := seq(nb, _ => []), nb;
      roots, total, S, F, Repr := {}, 0, map[], map[], {};
      new;
      assert Tiles(roots, 0);
    }

    /** Files a new root frame as free. */
    method FileRoot(f: Frame, ghost b: Block)
      requires IndexOk(Ix()) && S == InitForest(roots) && b.i < numBins && total == First(b)
      requires USER_MEM_START + PAGE_SIZE * (total + Pow2(b.i)) <= WORD
      requires f.addr == Addr(b) && f.i == b.i && NewFrame(F, f)
      modifies this
      ensures |old(bins)| == old(numBins) && b !in old(F) && IndexOk(Ix()) && Ix() == RootIx(old(Ix()), b, f)
      ensures S == InitForest(roots) && Repr == old(Repr) + {f}
    {
      hide IndexOk, Addr, First, Pow2, InitForest, NewFrame;
      ghost var ix := Ix();
      IndexFacts(ix);
      RootIxOk(ix, b, f);
      bins := bins[f.i := bins[f.i] + [f]];
      if f.addr in deallocs { assert false; }
      deallocs := deallocs[f.addr := f];
      ghost var ix' := RootIx(ix, b, f);
      roots, total, S, F, Repr := ix'.roots, ix'.total, ix'.S, ix'.F, Repr + {f};
    }

    /** Creates one free root frame right behind the existing ones. */
    method AddRootFrame(pAddr: nat, i: nat, ghost b: Block)
      requires Linked() && S == InitForest(roots) && i == b.i < numBins && total == First(b) && pAddr == Addr(b)
      requires USER_MEM_START + PAGE_SIZE * (total + Pow2(i)) <= WORD
      modifies this
      ensures old(Repr) <= Repr && fresh(Repr - old(Repr))
      ensures Linked() && S == InitForest(roots) && numBins == old(numBins) && total == old(total) + Pow2(i)
      ensures |bins| == |old(bins)| && |bins[i]| == |old(bins)[i]| + 1
      ensures forall k :: 0 <= k < |bins| && k != i ==> bins[k] == old(bins)[k]
    {
      hide IndexOk, Addr, First, Pow2, InitForest;
      IndexFacts(Ix());
      var f := new Frame(pAddr, Pow2(i), Free, i, null, null);
      assert NewFrame(F, f) by {
        forall c | c in F ensures F[c] != f { assert FrameOk(c); }
      }
      FileRoot(f, b);
      RootFramesOk(b);
    }

    twostate lemma RootFramesOk(b: Block)
      requires old(FramesOk()) && old(Repr) <= Repr && old(S) == InitForest(old(roots)) && S == InitForest(roots)
      requires b !in old(F) && old(F).Keys == old(S).Keys && roots == old(roots) + {b}
      requires b in F && F == old(F)[b := F[b]] && F[b] in Repr
      requires forall f :: f in old(Repr) ==> f.Shape() == old(f.Shape()) && f.status == old(f.status)
      requires F[b].Shape() == (Addr(b), Pow2(b.i), b.i, null, null) && F[b].status == Free
      ensures FramesOk()
    {
      hide Addr, Pow2;
      forall x | x in F ensures F[x] in Repr && FrameOk(x) {
        if x != b { assert old(FrameOk(x)); }
      }
    }

    /** Places as many roots of order `i` as still fit. */
    method FillBin(i: nat, pages: nat, addr0: nat, ghost m0: nat) returns (pagesRemaining: nat, pAddr: nat, ghost m: nat)
      requires Linked() && S == InitForest(roots) && i < numBins == |bins| && Aligned(total, m0, i)
      requires USER_MEM_START + PAGE_SIZE * (total + pages) <= WORD && addr0 == Wrap(USER_MEM_START + PAGE_SIZE * total)
      modifies this
      ensures old(Repr) <= Repr && fresh(Repr - old(Repr))
      ensures Linked() && S == InitForest(roots) && numBins == old(numBins) && |bins| == |old(bins)|
      ensures total + pagesRemaining == old(total) + pages && pagesRemaining < Pow2(i) && Aligned(total, m, i)
      ensures pAddr == Wrap(USER_MEM_START + PAGE_SIZE * total)
      ensures forall k :: 0 <= k < |bins| && k != i ==> bins[k] == old(bins)[k]
      ensures pages < 2 * Pow2(i) && old(bins)[i] == [] ==> |bins[i]| <= 1
    {
      hide IndexOk, FramesOk, Pow2, InitForest;
      var frameSize := Pow2(i);
      pagesRemaining, pAddr, m := pages, addr0, m0;
      while pagesRemaining >= frameSize
        invariant i < numBins == old(numBins) == |bins| == |old(bins)|
        invariant old(Repr) <= Repr && fresh(Repr - old(Repr))
        invariant Linked() && S == InitForest(roots) && total + pagesRemaining == old(total) + pages && total == m * frameSize
        invariant pAddr == Wrap(USER_MEM_START + PAGE_SIZE * total)
        invariant forall k :: 0 <= k < |bins| && k != i ==> bins[k] == old(bins)[k]
        invariant pages < 2 * frameSize ==> |bins[i]| - |old(bins)[i]| == if pagesRemaining == pages then 0 else 1
        invariant pagesRemaining <= pages && (pagesRemaining == pages || pagesRemaining <= pages - frameSize)
        decreases pagesRemaining
      {
        AddRootFrame(pAddr, i, Block(m, i));
        pagesRemaining := pagesRemaining - frameSize;
        pAddr := Wrap(pAddr + PAGE_SIZE * frameSize);
        assert (m + 1) * frameSize == m * frameSize + frameSize;
        m := m + 1;
      }
    }

    /** For each bin, starting with the largest, places as many root frames as possible. */
    method PlaceRoots(numPages: nat)
      requires Linked() && S == InitForest(roots) && total == 0 && 1 <= numBins == |bins|
      requires forall k :: 0 <= k < |bins| ==> bins[k] == []
      requires USER_MEM_START + PAGE_SIZE * numPages <= WORD
      modifies this
      ensures Linked() && S == InitForest(roots) && total == numPages && numBins == old(numBins) == |bins|
      ensures forall k :: 0 <= k < numBins - 1 ==> |bins[k]| <= 1
      ensures old(Repr) <= Repr && fresh(Repr - old(Repr))
    {
      hide IndexOk, FramesOk, Pow2, InitForest;
      var pagesRemaining: nat, pAddr: nat := numPages, USER_MEM_START;
      var i: int := numBins - 1;
      ghost var m: nat := 0;
      assert Aligned(0, 0, numBins - 1);
      hide Aligned;
      while i != -1
        invariant -1 <= i < numBins == old(numBins) == |bins|
        invariant old(Repr) <= Repr && fresh(Repr - old(Repr))
        invariant Linked() && S == InitForest(roots) && total + pagesRemaining == numPages
        invariant pAddr == Wrap(USER_MEM_START + PAGE_SIZE * total)
        invariant if i == -1 then pagesRemaining == 0 else Aligned(total, m, i)
        invariant 0 <= i < numBins - 1 ==> pagesRemaining < 2 * Pow2(i)
        invariant forall k :: 0 <= k <= i ==> bins[k] == []
        invariant forall k :: i < k < numBins - 1 ==> |bins[k]| <= 1
        decreases i + 1
      {
        pagesRemaining, pAddr, m := FillBin(i, pagesRemaining, pAddr, m);
        HalveOrder(total, m, i);
        i, m := i - 1, 2 * m;
      }
    }

    /**
      Covers `numPages` pages with root frames, largest first.  Afterwards the roots tile
      exactly that range and every bin below the top one holds at most one root.
    */
    method InitUserSpace(numPages: nat) returns (r: int)
      requires Valid() && roots == {} && S == map[] && total == 0 && bins == seq(numBins, _ => [])
      requires USER_MEM_START + PAGE_SIZE * numPages <= WORD
      modifies this
      ensures r == (if numPages == 0 then -1 else 0)
      ensures Valid() && total == numPages && S == InitForest(roots) && numBins == old(numBins)
      ensures forall k :: 0 <= k < numBins - 1 ==> |bins[k]| <= 1
      ensures old(Repr) <= Repr && fresh(Repr - old(Repr))
    {
      hide IndexOk, Rooted, FramesOk;
      IndexFacts(Ix());
      if numPages == 0 { return -1; }
      PlaceRoots(numPages);
      IndexFacts(Ix());
      RootedRoots(numBins, roots, S);
      InitGood(numBins, roots);
      return 0;
    }

    /** Takes a frame out of the table its status names. */
    method Unregister(frame: Frame, ghost b: Block)
      requires b in S && !S[b].Free? && frame.status == S[b] && frame.addr == Addr(b) && frame.i == b.i
      requires Key(S[b], b) in if S[b].Parent? then parents else allocs
      modifies this`parents, this`allocs
      ensures parents == ParentsWithout(old(Ix()), b) && allocs == AllocsWithout(old(Ix()), b)
    {
      if frame.status == Parent {
        var key := BitOr(frame.addr, frame.i);
        if key !in parents { assert false; }
        parents := parents - {key};
      } else {
        allocs := allocs - {frame.addr};
      }
    }

    /** Takes a frame and its free buddy out of every index. */
    method DropPair(frame: Frame, buddy: Frame, ghost b: Block)
      requires IndexOk(Ix()) && Pending(numBins, roots, S, b) && Merges(roots, S, b)
      requires frame.addr == Addr(b) && frame.i == b.i && frame.status == S[b] && buddy.addr == Addr(Buddy(b))
      modifies this
      ensures Repr == old(Repr) && old(b in S && b.i < |bins| && Buddy(b) in F) && Ix() == Merged(old(Ix()), b) && IndexOk(Ix())
    {
      hide IndexOk, Pending, Merges, Addr, Key, ParentsWithout, AllocsWithout, Unlink;
      ghost var ix := Ix();
      IndexFacts(ix);
      PendingFacts(numBins, roots, S, b);
      MergedOk(ix, b);
      Unregister(frame, b);
      if buddy.addr !in deallocs { assert false; }
      var buddyNode := deallocs[buddy.addr];
      deallocs := deallocs - {buddy.addr};
      bins := bins[frame.i := Unlink(bins[frame.i], buddyNode)];
      ghost var ix' := Merged(ix, b);
      S, F := ix'.S, ix'.F;
    }

    /** Destroys an allocated or parent frame together with its free buddy. */
    method DestroyPair(frame: Frame, ghost b: Block)
      requires Linked() && Pending(numBins, roots, S, b) && b in F && frame == F[b] && Merges(roots, S, b)
      modifies this
      ensures Repr == old(Repr) && old(b.i < |bins| && Buddy(b) in F) && Ix() == Merged(old(Ix()), b) && Linked()
      ensures Pending(numBins, roots, S, Par(b)) && Par(b) in S && S[Par(b)].Parent? && Par(b) in F
      ensures frame.parent == F[Par(b)]
    {
      hide IndexOk, Pending, Rooted, Injective, Addr;
      IndexFacts(Ix());
      PendingFacts(numBins, roots, S, b);
      ParWithin(b);
      MergedOk(Ix(), b);
      assert FrameOk(b) && FrameOk(Buddy(b));
      assert frame.parent == frame.buddy.parent && frame.parent != null;
      DropPair(frame, frame.buddy, b);
      IndexFacts(Ix());
      SurvivorsOk(b);
    }

    /** Files a frame as free. */
    method FileFree(frame: Frame, ghost b: Block)
      requires IndexOk(Ix()) && Pending(numBins, roots, S, b) && b in F && frame == F[b] && !Merges(roots, S, b)
      requires frame.addr == Addr(b) && frame.i == b.i && frame.status == S[b]
      modifies this, frame`status
      ensures Repr == old(Repr) && old(b.i < |bins|) && Ix() == Freed(old(Ix()), b) && IndexOk(Ix()) && frame.status == Free
    {
      hide IndexOk, Pending, Merges, Addr, Key, ParentsWithout, AllocsWithout;
      ghost var ix := Ix();
      IndexFacts(ix);
      PendingFacts(numBins, roots, S, b);
      FreedOk(ix, b);
      Unregister(frame, b);
      if frame.addr in deallocs { assert false; }
      deallocs := deallocs[frame.addr := frame];
      frame.status := Free;
      bins := bins[frame.i := bins[frame.i] + [frame]];
      ghost var ix' := Freed(ix, b);
      S := ix'.S;
    }

    /** Moves an allocated or parent frame that cannot merge further to the free frames. */
    method FreeFrame(frame: Frame, ghost b: Block)
      requires Linked() && Pending(numBins, roots, S, b) && b in F && frame == F[b] && !Merges(roots, S, b)
      modifies this, frame`status
      ensures Repr == old(Repr) && old(b.i < |bins|) && Ix() == Freed(old(Ix()), b) && Linked()
    {
      hide IndexOk, Pending, Injective, Addr, Merges;
      IndexFacts(Ix());
      assert FrameOk(b);
      FileFree(frame, b);
      RestatusOk(b);
    }

    /** Joins a frame whose halves have just been destroyed, as far up as possible. */
    method RequestJoin(frame: Frame?, ghost b: Block) returns (r: int)
      requires frame != null ==> Linked() && Pending(numBins, roots, S, b) && S[b].Parent? && frame == F[b]
      modifies this, Repr
      ensures frame == null ==> r == -1 && unchanged(this) && unchanged(Repr)
      ensures frame != null ==> r == 0 && Linked() && S == Join(old(numBins), old(roots), old(S), b)
      ensures roots == old(roots) && total == old(total) && numBins == old(numBins) && Repr == old(Repr)
      decreases if b.i < numBins then numBins - b.i else 0
    {
      hide IndexOk, Pending, Rooted, Addr, First, Pow2, BitOr, Injective, Unlink;
      if frame == null { return -1; }
      IndexFacts(Ix());
      PendingFacts(numBins, roots, S, b);
      assert FrameOk(b);
      assert b !in roots ==> FrameOk(Buddy(b));
      if frame.buddy != null && frame.buddy.status == Free {
        var parentFrame := frame.parent;
        DestroyPair(frame, b);
        var code := RequestJoin(parentFrame, Par(b));
        if code < 0 { assert false; }
      } else {
        FreeFrame(frame, b);
      }
      return 0;
    }

    lemma HalfFacts(b: Block)
      requires Linked() && 0 < b.i && b in F
      ensures F[b].i == b.i && F[b].addr == Addr(Left(b)) && F[b].numPages / 2 == Pow2(b.i - 1)
      ensures Wrap(F[b].addr + F[b].numPages / 2 * PAGE_SIZE) == Addr(Right(b))
    {
      assert FrameOk(b);
      AddrInRange(Ix(), b);
      HalvesInRange(b);
    }

    /** Allocates the records of the two halves of `b`, each the other's buddy. */
    method NewHalves(parentFrame: Frame, ghost b: Block) returns (left: Frame, right: Frame)
      requires Linked() && 0 < b.i && b in F && parentFrame == F[b]
      ensures fresh(left) && fresh(right) && left != right
      ensures left.Shape() == (Addr(Left(b)), Pow2(b.i - 1), b.i - 1, right, parentFrame) && left.status == Free
      ensures right.Shape() == (Addr(Right(b)), Pow2(b.i - 1), b.i - 1, left, parentFrame) && right.status == Free
    {
      hide Linked, Addr, Pow2, Wrap, Left, Right;
      HalfFacts(b);
      var half, order := parentFrame.numPages / 2, parentFrame.i - 1;
      var middle := Wrap(parentFrame.addr + half * PAGE_SIZE);
      left := new Frame(parentFrame.addr, half, Free, order, null, parentFrame);
      right := new Frame(middle, half, Free, order, left, parentFrame);
      left.buddy := right;
    }

    /** Moves the split frame from the free indexes to the parents and files its halves. */
    method RegisterHalves(parentFrame: Frame, left: Frame, right: Frame, ghost b: Block, i: nat)
      requires IndexOk(Ix()) && Wf(numBins, roots, S) && Has(S, b, Free) && 0 < i == b.i
      requires i < numBins && b in F && parentFrame == F[b] && parentFrame.addr == Addr(b) && parentFrame.i == i
      requires left.addr == Addr(Left(b)) && right.addr == Addr(Right(b)) && left != right
      requires NewFrame(F, left) && NewFrame(F, right)
      modifies this, parentFrame`status
      ensures Repr == old(Repr) + {left, right} && parentFrame.status == Parent
      ensures Ix() == SplitIx(old(Ix()), b, left, right) && IndexOk(Ix())
    {
      hide IndexOk, Wf, Addr, First, Pow2, BitOr, Unlink, SplitAt, NewFrame;
      ghost var ix := Ix();
      IndexFacts(ix);
      SplitIxOk(ix, b, left, right);
      /* deregister node from its bin and from deallocated, and register in parent */
      var key := BitOr(parentFrame.addr, parentFrame.i);
      if parentFrame.addr !in deallocs { assert false; }
      if key in parents { assert false; }
      var d := deallocs - {parentFrame.addr};
      parents := parents[key := parentFrame];
      parentFrame.status := Parent;
      /* link the new nodes and register them */
      bins := bins[i := Unlink(bins[i], parentFrame)][i - 1 := bins[i - 1] + [left, right]];
      if left.addr in d { assert false; }
      d := d[left.addr := left];
      if right.addr in d { assert false; }
      deallocs := d[right.addr := right];
      ghost var ix' := SplitIx(ix, b, left, right);
      S, F, Repr := ix'.S, ix'.F, Repr + {left, right};
    }

    /** Turns the free frame at the head of bin `b.i` into a parent of two new free frames. */
    method SplitFrame(ghost b: Block, i: nat)
      requires Linked() && Wf(numBins, roots, S) && Has(S, b, Free) && 0 < i == b.i
      requires i < numBins && bins[i] != [] && b in F && bins[i][0] == F[b]
      modifies this, Repr
      ensures fresh(Repr - old(Repr)) && old(Repr) <= Repr
      ensures Left(b) in F && Right(b) in F && Ix() == SplitIx(old(Ix()), b, F[Left(b)], F[Right(b)]) && Linked()
    {
      hide IndexOk, Rooted, Addr, First, Pow2, BitOr, Unlink, FullExcept, SplitAt;
      IndexFacts(Ix());
      assert FrameOk(b);
      SplitRooted(numBins, roots, S, b);
      /* get the next available frame in the frame bin */
      var parentFrame := bins[i][0];
      var left, right := NewHalves(parentFrame, b);
      assert NewFrame(F, left) && NewFrame(F, right) by {
        forall c | c in F ensures F[c] != left && F[c] != right { assert FrameOk(c); }
      }
      RegisterHalves(parentFrame, left, right, b, i);
      SplitFramesOk(b);
    }

    /** The two new records and the retagged parent fit into the linked structure. */
    twostate lemma SplitFramesOk(b: Block)
      requires old(FramesOk()) && roots == old(roots) && old(Repr) <= Repr
      requires b.i > 0 && Left(b) !in old(F) && Right(b) !in old(F) && b in old(F) && old(F).Keys == old(S).Keys
      requires Rooted(old(numBins), old(roots), old(S)) && Injective(old(F))
      requires Left(b) in F && Right(b) in F && F == old(F)[Left(b) := F[Left(b)]][Right(b) := F[Right(b)]]
      requires S == SplitAt(old(S), b)
      requires forall f :: f in old(Repr) ==> f.Shape() == old(f.Shape()) && (f != F[b] ==> f.status == old(f.status))
      requires F[b].status == Parent && F[Left(b)] in Repr && F[Right(b)] in Repr
      requires F[Left(b)].Shape() == (Addr(Left(b)), Pow2(b.i - 1), b.i - 1, F[Right(b)], F[b])
      requires F[Right(b)].Shape() == (Addr(Right(b)), Pow2(b.i - 1), b.i - 1, F[Left(b)], F[b])
      requires F[Left(b)].status == Free && F[Right(b)].status == Free
      ensures FramesOk()
    {
      hide Addr, Pow2;
      ChildWithin(b);
      forall x | x in F ensures F[x] in Repr && FrameOk(x) {
        if x != Left(b) && x != Right(b) { assert old(FrameOk(x)); }
      }
    }

    /**
      Makes bin `i - 1` hold two buddies by splitting a block of order `i`, itself obtained by
      splitting a larger one if need be.  The block consumed is the head of the first
      non-empty bin at or above `i`; if there is none, nothing changes.
    */
    method RequestSplit(i: nat) returns (r: int, ghost c: Block)
      requires Valid() && (0 < i <= numBins ==> bins[i - 1] == [])
      modifies this, Repr
      ensures r == 0 || r < 0
      ensures r < 0 <==> i == 0 || i >= old(numBins) || FirstBin(old(bins), i) == old(numBins)
      ensures r < 0 ==> unchanged(this) && unchanged(old(Repr))
      ensures roots == old(roots) && total == old(total) && numBins == old(numBins)
      ensures old(Repr) <= Repr && fresh(Repr - old(Repr))
      ensures r == 0 ==> Linked() && Has(old(S), c, Free) && i <= c.i && c in old(F)
      ensures r == 0 ==> old(F)[c] == old(bins)[FirstBin(old(bins), i)][0] && S == SplitDown(old(S), c, i - 1)
      ensures r == 0 ==> Leftmost(c, i - 1) in F && |bins[i - 1]| == 2 && bins[i - 1][0] == F[Leftmost(c, i - 1)]
      ensures r == 0 ==> forall k :: 0 <= k < i - 1 ==> bins[k] == old(bins)[k]
      decreases if i < numBins then numBins - i else 0
    {
      hide IndexOk, Linked, Good, Addr, Live, SplitDown, Leftmost;
      ValidFacts();
      BinCount();
      if i >= numBins || i == 0 { return -1, Block(0, 0); }
      if |bins[i]| == 0 {
        r, c := RequestSplit(i + 1);
        if r < 0 { return -2, c; }
      } else {
        c := FreeInBins(Ix(), i, bins[i][0]);
        NotSplitYet(S, c);
      }
      BinCount();
      SplitNext(i, c, old(S));
      return 0, c;
    }

    lemma BinCount()
      requires Linked()
      ensures |bins| == numBins && IndexOk(Ix())
    {
      IndexFacts(Ix());
    }

    /** Splits the leftmost block of order `i` that splitting `c` has made. */
    method SplitNext(i: nat, ghost c: Block, ghost S0: Forest)
      requires Linked() && Good(numBins, roots, S0) && Has(S0, c, Free) && 0 < i <= c.i && i < numBins && S == SplitDown(S0, c, i)
      requires |bins| == numBins && bins[i] != [] && Leftmost(c, i) in F && bins[i][0] == F[Leftmost(c, i)] && bins[i - 1] == []
      modifies this, Repr
      ensures roots == old(roots) && total == old(total) && numBins == old(numBins) && |bins| == numBins
      ensures old(Repr) <= Repr && fresh(Repr - old(Repr)) && Linked() && S == SplitDown(S0, c, i - 1)
      ensures Leftmost(c, i - 1) in F && |bins[i - 1]| == 2 && bins[i - 1][0] == F[Leftmost(c, i - 1)]
      ensures forall k :: 0 <= k < i - 1 ==> bins[k] == old(bins)[k]
    {
      hide IndexOk, Rooted, FullExcept, CoalescedExcept, SplitAt, FramesOk, Unlink, Addr, Live;
      IndexFacts(Ix());
      assert CoalescedExcept(S0, {Par(c)}) by { CoalescedWeaken(S0, {Par(c)}); }
      SplitDownGood(numBins, roots, S0, c, i);
      SplitFrame(Leftmost(c, i), i);
      SplitDownStep(S0, c, i - 1);
      LeftmostStep(c, i - 1);
    }

    /** Files the free frame at the head of bin `b.i` as allocated. */
    method FileAlloc(frame: Frame, ghost b: Block)
      requires IndexOk(Ix()) && Has(S, b, Free) && Rooted(numBins, roots, S[b := Alloc])
      requires b in F && frame == F[b] && frame.addr == Addr(b) && frame.i == b.i
      modifies this, frame`status
      ensures old(b.i < |bins|) && Repr == old(Repr) && Ix() == AllocIx(old(Ix()), b) && IndexOk(Ix()) && frame.status == Alloc
    {
      hide IndexOk, Rooted, Addr, Unlink;
      ghost var ix := Ix();
      AllocIxOk(ix, b);
      bins := bins[frame.i := Unlink(bins[frame.i], frame)];
      if frame.addr !in deallocs { assert false; }
      deallocs := deallocs - {frame.addr};
      if frame.addr in allocs { assert false; }
      allocs := allocs[frame.addr := frame];
      frame.status := Alloc;
      ghost var ix' := AllocIx(ix, b);
      S := ix'.S;
    }

    /** Hands out the free frame at the head of bin `j`. */
    method TakeHead(j: nat, ghost b: Block) returns (pAddr: nat)
      requires Linked() && Has(S, b, Free) && b.i == j && Rooted(numBins, roots, S[b := Alloc])
      requires j < |bins| && bins[j] != [] && b in F && bins[j][0] == F[b]
      modifies this, Repr
      ensures Repr == old(Repr) && Ix() == AllocIx(old(Ix()), b) && Linked() && pAddr == Addr(b)
    {
      hide IndexOk, Rooted, Addr, Injective;
      IndexFacts(Ix());
      assert FrameOk(b);
      var frame := bins[j][0];
      FileAlloc(frame, b);
      RestatusOk(b);
      pAddr := frame.addr;
    }

    /** Makes sure bin `j` is not empty, splitting a larger block if it is. */
    method FillFromAbove(j: nat) returns (ok: bool, ghost c: Block)
      requires Valid() && j < numBins == |bins|
      modifies this, Repr
      ensures ok <==> FirstBin(old(bins), j) < old(numBins)
      ensures !ok ==> unchanged(this) && unchanged(old(Repr))
      ensures roots == old(roots) && total == old(total) && numBins == old(numBins)
      ensures old(Repr) <= Repr && fresh(Repr - old(Repr))
      ensures ok ==> Linked() && Has(old(S), c, Free) && j <= c.i && c in old(F)
      ensures ok ==> old(F)[c] == old(bins)[FirstBin(old(bins), j)][0] && S == SplitDown(old(S), c, j)
      ensures ok ==> Leftmost(c, j) in F && j < |bins| && bins[j] != [] && bins[j][0] == F[Leftmost(c, j)]
    {
      hide IndexOk, Good, FramesOk, SplitAt;
      if |bins[j]| == 0 {
        var r;
        r, c := RequestSplit(j + 1);
        if r < 0 { return false, c; }
        IndexFacts(Ix());
      } else {
        c := FreeInBins(Ix(), j, bins[j][0]);
      }
      return true, c;
    }

    /**
      Allocates at least `num` pages: the smallest power of two that fits, cut from the head
      `c` of the first non-empty bin that is large enough.
    */
    method AllocPages(num: nat) returns (r: int, pAddr: nat, ghost b: Block, ghost c: Block)
      requires Valid()
      modifies this, Repr
      ensures Valid() && roots == old(roots) && total == old(total) && numBins == old(numBins)
      ensures old(Repr) <= Repr && fresh(Repr - old(Repr))
      ensures r == 0 || r == -1 || r == -2
      ensures r == -1 <==> num == 0 || num > Pow2(numBins - 1)
      ensures r == -2 <==> 0 < num <= Pow2(numBins - 1) && !exists a: Block :: a.i == OrderFor(num) && WhollyFree(roots, old(S), a)
      ensures r < 0 ==> unchanged(this) && unchanged(old(Repr))
      ensures r == 0 ==> Has(old(S), c, Free) && b.i == OrderFor(num) <= c.i && b == Leftmost(c, b.i)
      ensures r == 0 ==> S == Carve(old(S), c, b.i) && pAddr == Addr(b)
      ensures r == 0 ==> c in old(F) && b.i < old(numBins) == |old(bins)|
      ensures r == 0 ==> FirstBin(old(bins), b.i) < old(numBins) && old(F)[c] == old(bins)[FirstBin(old(bins), b.i)][0]
      ensures r == 0 ==> b !in Live(old(S)) && Live(S) == Live(old(S)) + {b}
      ensures r == 0 ==> BestFit(old(S), b.i, c)
    {
      hide IndexOk, Rooted, Good, SplitDown, BestFit, FramesOk, Unlink, Addr, Live, WhollyFree, OrderFor;
      IndexFacts(Ix());
      b, c := Block(0, 0), Block(0, 0);
      pAddr := 0;
      var frameSize := Pow2(numBins - 1);
      if num > frameSize { return -1, pAddr, b, c; }
      if num == 0 { return -1, pAddr, b, c; }
      var j := FindBin(num, numBins);
      FreeBinIffRange(Ix(), j);
      var ok;
      ok, c := FillFromAbove(j);
      if !ok { return -2, pAddr, b, c; }
      FirstBinFits(old(Ix()), j, c);
      b := Leftmost(c, j);
      CarveSteps(numBins, roots, old(S), c, j);
      IndexFacts(Ix());
      pAddr := TakeHead(j, b);
      return 0, pAddr, b, c;
    }

    /** Returns the block at `pAddr`, merging it with free buddies as far as possible. */
    method DeallocPages(pAddr: nat) returns (r: int, ghost b: Block)
      requires Valid()
      modifies this, Repr
      ensures Valid() && roots == old(roots) && total == old(total) && numBins == old(numBins) && Repr == old(Repr)
      ensures r == 0 || r == -2
      ensures r == 0 <==> exists x :: x in Live(old(S)) && Addr(x) == pAddr
      ensures r < 0 ==> unchanged(this) && unchanged(old(Repr))
      ensures r == 0 ==> b in Live(old(S)) && Addr(b) == pAddr && S == Join(numBins, roots, old(S), b)
      ensures r == 0 ==> Live(S) == Live(old(S)) - {b}
    {
      hide IndexOk, Rooted, FullExcept, CoalescedExcept, Unlink, Addr, Pending;
      IndexFacts(Ix());
      AllocTable(Ix(), pAddr);
      if pAddr !in allocs { return -2, Block(0, 0); }
      b :| b in Live(S) && Addr(b) == pAddr && b in F && F[b] == allocs[pAddr];
      var frame := allocs[pAddr];
      LivePending(numBins, roots, S, b);
      JoinGood(numBins, roots, S, b);
      assert FrameOk(b);
      assert b !in roots ==> FrameOk(Buddy(b));
      if frame.buddy != null && frame.buddy.status == Free {
        var parentFrame := frame.parent;
        DestroyPair(frame, b);
        var code := RequestJoin(parentFrame, Par(b));
      } else {
        FreeFrame(frame, b);
      }
      return 0, b;
    }

    /** Answers one request. */
    method Answer(req: Request) returns (code: int, pAddr: nat, ghost ops: seq<Op>)
      requires Valid()
      modifies this, Repr
      ensures Valid() && roots == old(roots) && total == old(total) && numBins == old(numBins) >= 1
      ensures old(Repr) <= Repr && fresh(Repr - old(Repr))
      ensures Answers(numBins, roots, old(S), req, code, pAddr, S) && Reaches(numBins, roots, old(S), ops, S)
    {
      hide Linked, Good, Carve, Join, WhollyFree, Live, OrderFor, Addr, Pow2, BestFit;
      ValidFacts();
      ghost var b, c;
      pAddr := 0;
      match req {
        case Get(num) =>
          code, pAddr, b, c := AllocPages(num);
          ops := if code == 0 then [AllocOp(c, b.i)] else [];
          assert code == 0 ==> Cut(old(S), OrderFor(num), c, pAddr, S);
        case Put(a) =>
          code, b := DeallocPages(a);
          if code == 0 { LiveIsAlloc(old(S), b); }
          ops := if code == 0 then [FreeOp(b)] else [];
      }
      assert |ops| == 1 ==> ops[1..] == [];
    }

    /**
      Any history of requests: each is answered right, and whatever the history was, every
      other history that leaves the same blocks allocated leaves the same forest.
    */
    method Serve(requests: seq<Request>) returns (codes: seq<int>, addrs: seq<nat>, ghost trace: seq<Forest>)
      requires Valid() && S == InitForest(roots)
      modifies this, Repr
      ensures Valid() && roots == old(roots) && total == old(total) && numBins == old(numBins) >= 1
      ensures |codes| == |addrs| == |requests| && |trace| == |requests| + 1 && trace[0] == InitForest(roots) && trace[|requests|] == S
      ensures forall i :: 0 <= i < |requests| ==> Answers(numBins, roots, trace[i], requests[i], codes[i], addrs[i], trace[i + 1])
      ensures forall ops, T :: Reaches(numBins, roots, InitForest(roots), ops, T) && Live(T) == Live(S) ==> T == S
    {
      hide Linked, Good, Answers;
      ValidFacts();
      codes, addrs, trace := [], [], [S];
      ghost var ops := [];
      for i := 0 to |requests|
        invariant Valid() && roots == old(roots) && total == old(total) && numBins == old(numBins) >= 1
        invariant old(Repr) <= Repr && fresh(Repr - old(Repr))
        invariant |codes| == |addrs| == i && |trace| == i + 1 && trace[0] == InitForest(roots) && trace[i] == S
        invariant forall k :: 0 <= k < i ==> Answers(numBins, roots, trace[k], requests[k], codes[k], addrs[k], trace[k + 1])
        invariant Reaches(numBins, roots, InitForest(roots), ops, S)
      {
        ghost var S0 := S;
        var code, pAddr;
        ghost var more;
        code, pAddr, more := Answer(requests[i]);
        ReachesOn(numBins, roots, InitForest(roots), ops, S0, more, S);
        ops := ops + more;
        codes, addrs, trace := codes + [code], addrs + [pAddr], trace + [S];
      }
      forall ops', T | Reaches(numBins, roots, InitForest(roots), ops', T) && Live(T) == Live(S) ensures T == S {
        GoodRoots(numBins, roots, S);
        RunsCanonical(numBins, roots, ops', ops, T, S);
      }
    }

    /** Changing the status of one block and its record keeps all records right. */
    twostate lemma RestatusOk(b: Block)
      requires old(FramesOk()) && roots == old(roots) && Repr == old(Repr) && F == old(F) && b in F && Injective(F)
      requires b in S && S == old(S)[b := S[b]] && F[b].status == S[b]
      requires forall f :: f in Repr ==> f.Shape() == old(f.Shape()) && (f != F[b] ==> f.status == old(f.status))
      ensures FramesOk()
    {
      forall x | x in F ensures FrameOk(x) {
        assert old(FrameOk(x));
      }
    }

    /** Destroying a frame and its buddy leaves every other record's pointers intact. */
    twostate lemma SurvivorsOk(b: Block)
      requires old(FramesOk()) && roots == old(roots) && Repr == old(Repr)
      requires S == old(S) - {b, Buddy(b)} && F == old(F) - {b, Buddy(b)}
      requires forall f :: f in Repr ==> f.Shape() == old(f.Shape()) && f.status == old(f.status)
      requires Rooted(numBins, roots, S) && F.Keys == S.Keys
      ensures FramesOk()
    {
      forall x | x in F ensures FrameOk(x) {
        assert old(FrameOk(x));
        ParWithin(x);
        ParWithin(b);
      }
    }
  }
}
