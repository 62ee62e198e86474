/**
  What every address space and the whole system of address spaces must satisfy, and how
  the steps of the virtual memory manager keep it.  A space is the value of one page
  directory: its translation and its list of frames.
*/
module Spaces {
  import opened Machine
  import opened Blocks
  import opened BuddyForest
  import opened FrameIndex
  import opened Paging
  import opened PageDirectories

  datatype Space = Space(dir: Dir, frames: seq<Meta>)

  predicate User(p: nat) { FIRST_USER_PAGE <= p < NUM_PAGES }

  /** Page `p` is a user page with a present entry. */
  predicate UserMapped(dir: Dir, p: nat)
    requires DirOk(dir)
  {
    User(p) && Mapped(dir, p)
  }

  predicate Starts(dir: Dir, p: nat)
    requires DirOk(dir)
  {
    UserMapped(dir, p) && IsStart(Pte(dir, p))
  }

  /** Physical page `f` belongs to frame `m`. */
  predicate InFrame(m: Meta, f: nat) { m.addr / PAGE_SIZE <= f < m.addr / PAGE_SIZE + m.n }

  /** Pages `s .. s+n` are one `new_pages` region: START on the first only, END on the last only. */
  predicate Region(dir: Dir, s: nat, n: nat)
    requires DirOk(dir)
  {
    && n > 0 && FIRST_USER_PAGE <= s && s + n <= NUM_PAGES
    && (forall q: nat :: s <= q < s + n ==> UserMapped(dir, q))
    && (forall q: nat :: s <= q < s + n ==> (IsStart(Pte(dir, q)) <==> q == s))
    && (forall q: nat :: s <= q < s + n ==> (IsEnd(Pte(dir, q)) <==> q == s + n - 1))
  }

  lemma RegionUnique(dir: Dir, s: nat, n: nat, m: nat)
    requires DirOk(dir) && Region(dir, s, n) && Region(dir, s, m)
    ensures n == m
  {
    assert IsEnd(Pte(dir, s + n - 1)) && IsEnd(Pte(dir, s + m - 1));
  }

  function MappedSet(dir: Dir): set<nat>
    requires DirOk(dir)
  {
    set p: nat | FIRST_USER_PAGE <= p < NUM_PAGES && Mapped(dir, p)
  }

  // ---- One space -----------------------------------------------------------

  ghost predicate OwnedBy(frames: seq<Meta>, f: nat) {
    exists k :: 0 <= k < |frames| && InFrame(frames[k], f)
  }

  /** Every present user entry points into a frame of the directory's own list. */
  ghost predicate Owned(sp: Space)
    requires DirOk(sp.dir)
  {
    forall p: nat :: UserMapped(sp.dir, p) ==> OwnedBy(sp.frames, Phys(Pte(sp.dir, p)))
  }

  ghost predicate HasRegion(dir: Dir, s: nat)
    requires DirOk(dir)
  {
    exists n: nat :: Region(dir, s, n)
  }

  ghost predicate RegionsOk(dir: Dir)
    requires DirOk(dir)
  {
    forall s: nat :: Starts(dir, s) ==> HasRegion(dir, s)
  }

  /** The region `s .. s+n` and frame `m` are mapped onto each other and nothing else uses `m`. */
  ghost predicate Exclusive(dir: Dir, m: Meta, s: nat, n: nat)
    requires DirOk(dir)
  {
    n == m.n && forall q: nat :: UserMapped(dir, q) && InFrame(m, Phys(Pte(dir, q))) ==> s <= q < s + n
  }

  /** A region whose first page lies at the base of a frame has that frame to itself. */
  ghost predicate FramesExclusive(sp: Space)
    requires DirOk(sp.dir)
  {
    forall s: nat, n: nat, k :: Region(sp.dir, s, n) && 0 <= k < |sp.frames| && sp.frames[k].addr == RemoveFlags(Pte(sp.dir, s))
      ==> Exclusive(sp.dir, sp.frames[k], s, n)
  }

  ghost predicate DistinctAddrs(frames: seq<Meta>) {
    forall j, k :: 0 <= j < k < |frames| ==> frames[j].addr != frames[k].addr
  }

  ghost predicate SpaceOk(sp: Space) {
    && DirOk(sp.dir) && Owned(sp) && RegionsOk(sp.dir) && FramesExclusive(sp) && DistinctAddrs(sp.frames)
    && |MappedSet(sp.dir)| == SumPages(sp.frames)
  }

  // ---- All spaces ----------------------------------------------------------

  type Spaces = map<PageDirectory, Space>

  ghost predicate LiveOk(live: set<Block>) {
    forall b, c, p: nat :: b in live && c in live && HasPage(b, p) && HasPage(c, p) ==> b == c
  }

  ghost predicate Backs(b: Block, m: Meta) { Addr(b) == m.addr && m.n <= Pow2(b.i) }

  ghost predicate Backed(live: set<Block>, m: Meta) { exists b :: b in live && Backs(b, m) }

  ghost predicate OwnsAddr(sp: Space, a: nat) { exists k :: 0 <= k < |sp.frames| && sp.frames[k].addr == a }

  ghost predicate SomeOwner(sps: Spaces, a: nat) { exists d :: d in sps && OwnsAddr(sps[d], a) }

  ghost predicate AllSpacesOk(sps: Spaces) { forall d :: d in sps ==> SpaceOk(sps[d]) }

  ghost predicate AllBacked(live: set<Block>, sps: Spaces) {
    forall d, k :: d in sps && 0 <= k < |sps[d].frames| ==> Backed(live, sps[d].frames[k])
  }

  ghost predicate AllListed(live: set<Block>, sps: Spaces) { forall b :: b in live ==> SomeOwner(sps, Addr(b)) }

  ghost predicate OneOwner(sps: Spaces) {
    forall d, e, a :: d in sps && e in sps && OwnsAddr(sps[d], a) && OwnsAddr(sps[e], a) ==> d == e
  }

  /**
    No leak and no sharing: the frame lists of all directories together name every allocated
    block exactly once, and each space is in order.
  */
  ghost predicate SysOk(live: set<Block>, sps: Spaces) {
    LiveOk(live) && AllSpacesOk(sps) && AllBacked(live, sps) && AllListed(live, sps) && OneOwner(sps)
  }

  // ---- Frames do not overlap -----------------------------------------------

  lemma FrameInBlock(b: Block, m: Meta, f: nat)
    requires Backs(b, m) && InFrame(m, f)
    ensures f >= FIRST_USER_PAGE && HasPage(b, f - FIRST_USER_PAGE)
  {
    assert m.addr / PAGE_SIZE == FIRST_USER_PAGE + First(b);
    PagesOfBlock(b, f - FIRST_USER_PAGE);
  }

  /** Two live frames that share a physical page have the same base. */
  lemma FramesApart(live: set<Block>, m: Meta, m': Meta, f: nat)
    requires LiveOk(live) && Backed(live, m) && Backed(live, m') && InFrame(m, f) && InFrame(m', f)
    ensures m.addr == m'.addr
  {
    var b :| b in live && Backs(b, m);
    var c :| c in live && Backs(c, m');
    FrameInBlock(b, m, f);
    FrameInBlock(c, m', f);
  }

  /**
    Cross-process isolation: pages of two different directories are never translated to the
    same physical page, and the shared page always lies in a frame both would have to own.
  */
  lemma Isolation(live: set<Block>, sps: Spaces, d: PageDirectory, e: PageDirectory, p: nat, q: nat)
    requires SysOk(live, sps) && d in sps && e in sps && d != e
    requires UserMapped(sps[d].dir, p) && UserMapped(sps[e].dir, q)
    ensures Phys(Pte(sps[d].dir, p)) != Phys(Pte(sps[e].dir, q))
  {
    assert SpaceOk(sps[d]) && SpaceOk(sps[e]);
    var f := Phys(Pte(sps[d].dir, p));
    if f == Phys(Pte(sps[e].dir, q)) {
      assert OwnedBy(sps[d].frames, f) && OwnedBy(sps[e].frames, f);
      var j :| 0 <= j < |sps[d].frames| && InFrame(sps[d].frames[j], f);
      var k :| 0 <= k < |sps[e].frames| && InFrame(sps[e].frames[k], f);
      FramesApart(live, sps[d].frames[j], sps[e].frames[k], f);
      assert OwnsAddr(sps[d], sps[d].frames[j].addr) && OwnsAddr(sps[e], sps[d].frames[j].addr);
    }
  }

  /** No user page is translated to the kernel's memory. */
  lemma KernelMemory(live: set<Block>, sps: Spaces, d: PageDirectory, p: nat)
    requires SysOk(live, sps) && d in sps && DirOk(sps[d].dir) && UserMapped(sps[d].dir, p)
    ensures Phys(Pte(sps[d].dir, p)) >= FIRST_USER_PAGE
  {
    hide Pte, DirOk, Phys, RegionsOk, FramesExclusive;
    var f := Phys(Pte(sps[d].dir, p));
    assert SpaceOk(sps[d]) && OwnedBy(sps[d].frames, f);
    var k :| 0 <= k < |sps[d].frames| && InFrame(sps[d].frames[k], f);
    assert Backed(live, sps[d].frames[k]);
    var b :| b in live && Backs(b, sps[d].frames[k]);
    FrameInBlock(b, sps[d].frames[k], f);
  }

  // ---- Counting ------------------------------------------------------------

  function Range(s: nat, n: nat): (r: set<nat>)
    ensures forall p :: p in r <==> s <= p < s + n
  {
    if n == 0 then {} else Range(s, n - 1) + {s + n - 1}
  }

  lemma {:induction false} RangeSize(s: nat, n: nat)
    ensures |Range(s, n)| == n
  {
    if n > 0 { RangeSize(s, n - 1); }
  }

  // ---- Adding pages --------------------------------------------------------

  /** `dir'` is `dir` with the unmapped pages `s .. s+n` mapped to consecutive pages from `a` on. */
  ghost predicate Added(dir: Dir, dir': Dir, s: nat, n: nat, a: nat) {
    && DirOk(dir) && DirOk(dir') && n > 0 && FIRST_USER_PAGE <= s && s + n <= NUM_PAGES
    && (forall q: nat :: s <= q < s + n ==> !UserMapped(dir, q))
    && (forall q: nat :: s <= q < s + n ==> UserMapped(dir', q))
    && (forall q: nat :: s <= q < s + n ==> Phys(Pte(dir', q)) == a / PAGE_SIZE + (q - s))
    && (forall q: nat :: User(q) && !(s <= q < s + n) ==> Pte(dir', q) == Pte(dir, q))
  }

  /** The new pages are one region, or carry no region marks at all. */
  ghost predicate WellMarked(dir: Dir, s: nat, n: nat)
    requires DirOk(dir)
  {
    || Region(dir, s, n)
    || forall q: nat :: s <= q < s + n && UserMapped(dir, q) ==> !IsStart(Pte(dir, q))
  }

  lemma OldRegionStays(dir: Dir, dir': Dir, s: nat, n: nat, a: nat, x: nat, y: nat)
    requires Added(dir, dir', s, n, a) && Region(dir, x, y)
    ensures Region(dir', x, y)
  {
    forall q: nat | x <= q < x + y ensures UserMapped(dir', q) && Pte(dir', q) == Pte(dir, q) {
      assert UserMapped(dir, q);
    }
  }

  /** A region after the addition is the new one or an old one. */
  lemma RegionsAfterAdd(dir: Dir, dir': Dir, s: nat, n: nat, a: nat, x: nat, y: nat)
    requires Added(dir, dir', s, n, a) && WellMarked(dir', s, n) && RegionsOk(dir) && Region(dir', x, y)
    ensures (x == s && y == n && Region(dir', s, n)) || (Region(dir, x, y) && !(s <= x < s + n))
  {
    assert UserMapped(dir', x) && IsStart(Pte(dir', x));
    if s <= x < s + n {
      assert x == s;
      RegionUnique(dir', s, n, y);
    } else {
      assert Starts(dir, x) && HasRegion(dir, x);
      var z: nat :| Region(dir, x, z);
      OldRegionStays(dir, dir', s, n, a, x, z);
      RegionUnique(dir', x, y, z);
    }
  }

  lemma AddRegions(dir: Dir, dir': Dir, s: nat, n: nat, a: nat)
    requires Added(dir, dir', s, n, a) && WellMarked(dir', s, n) && RegionsOk(dir)
    ensures RegionsOk(dir')
  {
    forall x: nat | Starts(dir', x) ensures HasRegion(dir', x) {
      if s <= x < s + n {
        assert Region(dir', s, n) && x == s;
      } else {
        assert Starts(dir, x) && HasRegion(dir, x);
        var z: nat :| Region(dir, x, z);
        OldRegionStays(dir, dir', s, n, a, x, z);
      }
    }
  }

  lemma AddCount(dir: Dir, dir': Dir, s: nat, n: nat, a: nat)
    requires Added(dir, dir', s, n, a)
    ensures |MappedSet(dir')| == |MappedSet(dir)| + n
  {
    RangeSize(s, n);
    forall q: nat | User(q) ensures q in MappedSet(dir') <==> q in MappedSet(dir) || q in Range(s, n) {
      if s <= q < s + n { assert UserMapped(dir', q); }
    }
    assert MappedSet(dir') == MappedSet(dir) + Range(s, n);
    forall q | q in MappedSet(dir) ensures q !in Range(s, n) { assert UserMapped(dir, q); }
    assert MappedSet(dir) !! Range(s, n);
  }

  /** The new frame overlaps none of the frames already listed. */
  ghost predicate FreshFrame(frames: seq<Meta>, m: Meta) {
    forall k, f :: 0 <= k < |frames| && InFrame(frames[k], f) ==> !InFrame(m, f)
  }

  lemma AddOwned(sp: Space, dir': Dir, s: nat, n: nat, m: Meta)
    requires SpaceOk(sp) && Added(sp.dir, dir', s, n, m.addr) && m.n == n
    ensures Owned(Space(dir', [m] + sp.frames))
  {
    var fs := [m] + sp.frames;
    forall p: nat | UserMapped(dir', p) ensures OwnedBy(fs, Phys(Pte(dir', p))) {
      if s <= p < s + n {
        assert fs[0] == m && InFrame(fs[0], Phys(Pte(dir', p)));
      } else {
        assert UserMapped(sp.dir, p) && OwnedBy(sp.frames, Phys(Pte(sp.dir, p)));
        var k :| 0 <= k < |sp.frames| && InFrame(sp.frames[k], Phys(Pte(sp.dir, p)));
        assert fs[k + 1] == sp.frames[k];
      }
    }
  }

  lemma AddExclusive(sp: Space, dir': Dir, s: nat, n: nat, m: Meta)
    requires SpaceOk(sp) && Added(sp.dir, dir', s, n, m.addr) && m.n == n && WellMarked(dir', s, n)
    requires FreshFrame(sp.frames, m) && m.addr % PAGE_SIZE == 0
    requires forall k :: 0 <= k < |sp.frames| ==> sp.frames[k].addr != m.addr
    ensures FramesExclusive(Space(dir', [m] + sp.frames))
  {
    var fs := [m] + sp.frames;
    forall x: nat, y: nat, k | Region(dir', x, y) && 0 <= k < |fs| && fs[k].addr == RemoveFlags(Pte(dir', x))
      ensures Exclusive(dir', fs[k], x, y)
    {
      RegionsAfterAdd(sp.dir, dir', s, n, m.addr, x, y);
      assert UserMapped(dir', x);
      assert RemoveFlags(Pte(dir', x)) == Phys(Pte(dir', x)) * PAGE_SIZE;
      if k == 0 {
        if !(s <= x < s + n) { OldPageElsewhere(sp, dir', s, n, m, x); }
        forall q: nat | UserMapped(dir', q) && InFrame(m, Phys(Pte(dir', q))) ensures s <= q < s + n {
          if !(s <= q < s + n) { OldPageElsewhere(sp, dir', s, n, m, q); }
        }
      } else {
        assert fs[k] == sp.frames[k - 1];
        assert x != s;
        assert Exclusive(sp.dir, sp.frames[k - 1], x, y);
        forall q: nat | UserMapped(dir', q) && InFrame(fs[k], Phys(Pte(dir', q))) ensures x <= q < x + y {
          if s <= q < s + n { assert InFrame(m, Phys(Pte(dir', q))); }
        }
      }
    }
  }

  /** Pages mapped before never point into the new frame. */
  lemma OldPageElsewhere(sp: Space, dir': Dir, s: nat, n: nat, m: Meta, q: nat)
    requires SpaceOk(sp) && Added(sp.dir, dir', s, n, m.addr) && FreshFrame(sp.frames, m)
    requires UserMapped(dir', q) && !(s <= q < s + n)
    ensures !InFrame(m, Phys(Pte(dir', q)))
  {
    assert UserMapped(sp.dir, q) && OwnedBy(sp.frames, Phys(Pte(sp.dir, q)));
  }

  lemma AddSpaceOk(sp: Space, dir': Dir, s: nat, n: nat, m: Meta)
    requires SpaceOk(sp) && Added(sp.dir, dir', s, n, m.addr) && m.n == n && WellMarked(dir', s, n)
    requires FreshFrame(sp.frames, m) && m.addr % PAGE_SIZE == 0
    requires forall k :: 0 <= k < |sp.frames| ==> sp.frames[k].addr != m.addr
    ensures SpaceOk(Space(dir', [m] + sp.frames))
  {
    hide Owned, FramesExclusive, RegionsOk;
    AddOwned(sp, dir', s, n, m);
    AddExclusive(sp, dir', s, n, m);
    AddRegions(sp.dir, dir', s, n, m.addr);
    AddCount(sp.dir, dir', s, n, m.addr);
    assert ([m] + sp.frames)[1..] == sp.frames;
  }

  // ---- Removing a region ---------------------------------------------------

  /** `dir'` is `dir` with the pages `s .. s+n` unmapped. */
  ghost predicate Dropped(dir: Dir, dir': Dir, s: nat, n: nat) {
    && DirOk(dir) && DirOk(dir')
    && (forall q: nat :: s <= q < s + n && User(q) ==> Pte(dir', q) == 0)
    && (forall q: nat :: User(q) && !(s <= q < s + n) ==> Pte(dir', q) == Pte(dir, q))
  }

  lemma DropRegions(dir: Dir, dir': Dir, s: nat, n: nat)
    requires Dropped(dir, dir', s, n) && Region(dir, s, n) && RegionsOk(dir)
    ensures RegionsOk(dir')
  {
    forall x: nat | Starts(dir', x) ensures HasRegion(dir', x) {
      assert Starts(dir, x) && !(s <= x < s + n) && HasRegion(dir, x);
      var y: nat :| Region(dir, x, y);
      assert IsStart(Pte(dir, s)) && IsStart(Pte(dir, x)) && !(x < s < x + y);
      forall q: nat | x <= q < x + y ensures UserMapped(dir', q) && Pte(dir', q) == Pte(dir, q) {
        assert UserMapped(dir, q);
      }
      assert Region(dir', x, y);
    }
  }

  lemma DropCount(dir: Dir, dir': Dir, s: nat, n: nat)
    requires Dropped(dir, dir', s, n) && Region(dir, s, n)
    ensures |MappedSet(dir')| + n == |MappedSet(dir)|
  {
    hide Pte, DirOk, IsStart, IsEnd;
    RangeSize(s, n);
    forall q: nat | User(q) ensures q in MappedSet(dir) <==> q in MappedSet(dir') || q in Range(s, n) {
      if s <= q < s + n { assert UserMapped(dir, q); }
    }
    assert MappedSet(dir) == MappedSet(dir') + Range(s, n);
    assert MappedSet(dir') !! Range(s, n);
  }

  lemma DropOwned(sp: Space, dir': Dir, s: nat, n: nat, k: nat)
    requires SpaceOk(sp) && Dropped(sp.dir, dir', s, n) && k < |sp.frames| && Exclusive(sp.dir, sp.frames[k], s, n)
    ensures Owned(Space(dir', Without(sp.frames, k)))
  {
    var fs := Without(sp.frames, k);
    forall p: nat | UserMapped(dir', p) ensures OwnedBy(fs, Phys(Pte(dir', p))) {
      assert UserMapped(sp.dir, p) && OwnedBy(sp.frames, Phys(Pte(sp.dir, p)));
      var j :| 0 <= j < |sp.frames| && InFrame(sp.frames[j], Phys(Pte(sp.dir, p)));
      assert sp.frames[j] == if j < k then fs[j] else fs[j - 1];
    }
  }

  lemma DropExclusive(sp: Space, dir': Dir, s: nat, n: nat, k: nat)
    requires SpaceOk(sp) && Dropped(sp.dir, dir', s, n) && k < |sp.frames|
    ensures FramesExclusive(Space(dir', Without(sp.frames, k)))
  {
    var fs := Without(sp.frames, k);
    forall x: nat, y: nat, j | Region(dir', x, y) && 0 <= j < |fs| && fs[j].addr == RemoveFlags(Pte(dir', x))
      ensures Exclusive(dir', fs[j], x, y)
    {
      forall q: nat | x <= q < x + y ensures UserMapped(sp.dir, q) && Pte(dir', q) == Pte(sp.dir, q) {
        assert UserMapped(dir', q);
      }
      assert Region(sp.dir, x, y);
      var i := if j < k then j else j + 1;
      assert fs[j] == sp.frames[i];
      assert Exclusive(sp.dir, sp.frames[i], x, y);
      forall q: nat | UserMapped(dir', q) && InFrame(fs[j], Phys(Pte(dir', q))) ensures x <= q < x + y {
        assert UserMapped(sp.dir, q);
      }
    }
  }

  lemma DropSpaceOk(sp: Space, dir': Dir, s: nat, n: nat, k: nat)
    requires SpaceOk(sp) && Dropped(sp.dir, dir', s, n) && Region(sp.dir, s, n)
    requires k < |sp.frames| && sp.frames[k].addr == RemoveFlags(Pte(sp.dir, s))
    ensures n == sp.frames[k].n && SpaceOk(Space(dir', Without(sp.frames, k)))
  {
    assert Exclusive(sp.dir, sp.frames[k], s, n);
    hide Owned, FramesExclusive, RegionsOk;
    DropOwned(sp, dir', s, n, k);
    DropExclusive(sp, dir', s, n, k);
    DropRegions(sp.dir, dir', s, n);
    DropCount(sp.dir, dir', s, n);
    SumWithout(sp.frames, k);
    var fs := Without(sp.frames, k);
    assert forall j :: 0 <= j < |fs| ==> fs[j] == sp.frames[if j < k then j else j + 1];
  }

  // ---- The empty space -----------------------------------------------------

  lemma EmptySpaceOk(dir: Dir)
    requires DirOk(dir) && forall p: nat :: User(p) ==> !HasTable(dir, p)
    ensures SpaceOk(Space(dir, []))
  {
    assert forall p: nat :: !UserMapped(dir, p);
    assert MappedSet(dir) == {};
    assert forall s: nat, n: nat :: Region(dir, s, n) ==> UserMapped(dir, s);
  }

  // ---- The system ----------------------------------------------------------

  lemma AddrInjective(live: set<Block>, b: Block, c: Block)
    requires LiveOk(live) && b in live && c in live && Addr(b) == Addr(c)
    ensures b == c
  {
    FirstPage(b);
    FirstPage(c);
  }

  lemma ListedIsBacked(live: set<Block>, sps: Spaces, d: PageDirectory, k: nat)
    requires SysOk(live, sps) && d in sps && k < |sps[d].frames|
    ensures Backed(live, sps[d].frames[k])
  {
  }

  lemma BacksAligned(b: Block, m: Meta)
    requires Backs(b, m)
    ensures m.addr % PAGE_SIZE == 0
  {
  }

  lemma OtherFrame(live: set<Block>, b: Block, m: Meta, x: Meta)
    requires b !in live && LiveOk(live + {b}) && Backs(b, m) && Backed(live, x)
    ensures x.addr != m.addr && Backed(live + {b}, x)
  {
    hide LiveOk, Addr, Pow2;
    var c :| c in live && Backs(c, x);
    assert c in live + {b};
    if x.addr == m.addr { AddrInjective(live + {b}, b, c); }
  }

  /** A block just handed out has an address no directory lists and overlaps no listed frame. */
  lemma NewBlockApart(live: set<Block>, sps: Spaces, b: Block, m: Meta, d: PageDirectory)
    requires SysOk(live, sps) && b !in live && LiveOk(live + {b}) && Backs(b, m) && d in sps
    ensures !OwnsAddr(sps[d], m.addr) && FreshFrame(sps[d].frames, m) && m.addr % PAGE_SIZE == 0
  {
    hide SysOk, LiveOk, Backs, InFrame, Addr;
    BacksAligned(b, m);
    var live', fs := live + {b}, sps[d].frames;
    assert b in live' && Backed(live', m);
    forall k | 0 <= k < |fs| ensures fs[k].addr != m.addr && Backed(live', fs[k]) {
      ListedIsBacked(live, sps, d, k);
      OtherFrame(live, b, m, fs[k]);
    }
    hide Backed;
    forall k, f | 0 <= k < |fs| && InFrame(fs[k], f) ensures !InFrame(m, f) {
      if InFrame(m, f) { FramesApart(live', fs[k], m, f); }
    }
  }

  lemma SysGrow(live: set<Block>, sps: Spaces, d: PageDirectory, sp': Space, b: Block, m: Meta)
    requires SysOk(live, sps) && d in sps && b !in live && LiveOk(live + {b}) && Backs(b, m)
    requires SpaceOk(sp') && sp'.frames == [m] + sps[d].frames
    ensures SysOk(live + {b}, sps[d := sp'])
  {
    hide SpaceOk;
    var live', sps' := live + {b}, sps[d := sp'];
    forall e | e in sps ensures !OwnsAddr(sps[e], m.addr) { NewBlockApart(live, sps, b, m, e); }
    assert b in live' && Backed(live', m);
    forall e, k | e in sps' && 0 <= k < |sps'[e].frames| ensures Backed(live', sps'[e].frames[k]) {
      if e != d || k > 0 {
        var x := if e == d then sps[d].frames[k - 1] else sps[e].frames[k];
        assert Backed(live, x);
        var c :| c in live && Backs(c, x);
        assert c in live';
      }
    }
    forall a ensures OwnsAddr(sp', a) <==> OwnsAddr(sps[d], a) || a == m.addr { OwnsCons(sps[d], sp', m, a); }
    forall c | c in live' ensures SomeOwner(sps', Addr(c)) {
      if c == b {
        assert d in sps' && OwnsAddr(sps'[d], Addr(c));
      } else {
        assert SomeOwner(sps, Addr(c));
        var e: PageDirectory :| e in sps && OwnsAddr(sps[e], Addr(c));
        assert e in sps' && OwnsAddr(sps'[e], Addr(c));
      }
    }
  }

  lemma OwnsCons(sp: Space, sp': Space, m: Meta, a: nat)
    requires sp'.frames == [m] + sp.frames
    ensures OwnsAddr(sp', a) <==> OwnsAddr(sp, a) || a == m.addr
  {
    assert sp'.frames[0] == m;
    if OwnsAddr(sp, a) {
      var k :| 0 <= k < |sp.frames| && sp.frames[k].addr == a;
      assert sp'.frames[k + 1] == sp.frames[k];
    }
  }

  lemma OwnsWithout(sp: Space, sp': Space, k: nat, a: nat)
    requires DistinctAddrs(sp.frames) && k < |sp.frames| && sp'.frames == Without(sp.frames, k)
    ensures OwnsAddr(sp', a) <==> OwnsAddr(sp, a) && a != sp.frames[k].addr
  {
    hide DistinctAddrs;
    if OwnsAddr(sp, a) && a != sp.frames[k].addr {
      var j :| 0 <= j < |sp.frames| && sp.frames[j].addr == a;
      var i := if j < k then j else j - 1;
      assert 0 <= i < |sp'.frames| && sp'.frames[i] == sp.frames[j];
    }
    if OwnsAddr(sp', a) {
      var j :| 0 <= j < |sp'.frames| && sp'.frames[j].addr == a;
      var i := if j < k then j else j + 1;
      assert 0 <= i < |sp.frames| && sp.frames[i] == sp'.frames[j];
      DifferentAddrs(sp.frames, i, k);
    }
  }

  lemma DifferentAddrs(frames: seq<Meta>, i: nat, k: nat)
    requires DistinctAddrs(frames) && i < |frames| && k < |frames| && i != k
    ensures frames[i].addr != frames[k].addr
  {
    if i < k { assert frames[i].addr != frames[k].addr; } else { assert frames[k].addr != frames[i].addr; }
  }

  lemma BackedWithout(live: set<Block>, m: Meta, b: Block)
    requires Backed(live, m) && m.addr != Addr(b)
    ensures Backed(live - {b}, m)
  {
    var c :| c in live && Backs(c, m);
    assert c in live - {b};
  }

  lemma ShrinkBacked(live: set<Block>, sps: Spaces, d: PageDirectory, sp': Space, b: Block, k: nat)
    requires AllBacked(live, sps) && OneOwner(sps) && d in sps && k < |sps[d].frames| && Addr(b) == sps[d].frames[k].addr
    requires DistinctAddrs(sps[d].frames) && sp'.frames == Without(sps[d].frames, k)
    ensures AllBacked(live - {b}, sps[d := sp'])
  {
    hide Addr;
    var sps' := sps[d := sp'];
    forall e, j | e in sps' && 0 <= j < |sps'[e].frames| ensures Backed(live - {b}, sps'[e].frames[j]) {
      var x := sps'[e].frames[j];
      if e == d {
        assert x == sps[d].frames[if j < k then j else j + 1];
      } else {
        assert x == sps[e].frames[j] && OwnsAddr(sps[e], x.addr) && OwnsAddr(sps[d], Addr(b));
      }
      BackedWithout(live, x, b);
    }
  }

  lemma ShrinkListed(live: set<Block>, sps: Spaces, d: PageDirectory, sp': Space, b: Block, k: nat)
    requires LiveOk(live) && b in live && AllListed(live, sps) && d in sps && k < |sps[d].frames| && Addr(b) == sps[d].frames[k].addr
    requires DistinctAddrs(sps[d].frames) && sp'.frames == Without(sps[d].frames, k)
    ensures AllListed(live - {b}, sps[d := sp'])
  {
    hide Addr, LiveOk;
    var sps' := sps[d := sp'];
    forall c | c in live - {b} ensures SomeOwner(sps', Addr(c)) {
      assert SomeOwner(sps, Addr(c));
      var e: PageDirectory :| e in sps && OwnsAddr(sps[e], Addr(c));
      if Addr(c) == Addr(b) { AddrInjective(live, b, c); }
      OwnsWithout(sps[d], sp', k, Addr(c));
      assert e in sps' && OwnsAddr(sps'[e], Addr(c));
    }
  }

  lemma ShrinkOneOwner(sps: Spaces, d: PageDirectory, sp': Space, k: nat)
    requires OneOwner(sps) && d in sps && k < |sps[d].frames|
    requires DistinctAddrs(sps[d].frames) && sp'.frames == Without(sps[d].frames, k)
    ensures OneOwner(sps[d := sp'])
  {
    forall a ensures OwnsAddr(sp', a) ==> OwnsAddr(sps[d], a) { OwnsWithout(sps[d], sp', k, a); }
  }

  lemma SysShrink(live: set<Block>, sps: Spaces, d: PageDirectory, sp': Space, b: Block, k: nat)
    requires SysOk(live, sps) && d in sps && b in live && k < |sps[d].frames| && Addr(b) == sps[d].frames[k].addr
    requires SpaceOk(sp') && sp'.frames == Without(sps[d].frames, k)
    ensures SysOk(live - {b}, sps[d := sp'])
  {
    assert DistinctAddrs(sps[d].frames) by { assert SpaceOk(sps[d]); }
    hide SpaceOk, AllBacked, AllListed, OneOwner, Without;
    ShrinkBacked(live, sps, d, sp', b, k);
    ShrinkListed(live, sps, d, sp', b, k);
    ShrinkOneOwner(sps, d, sp', k);
  }

  /** The allocated blocks listed by a space. */
  function BlocksOf(live: set<Block>, frames: seq<Meta>): set<Block> {
    set b | b in live && exists k :: 0 <= k < |frames| && frames[k].addr == Addr(b)
  }

  lemma SysClear(live: set<Block>, sps: Spaces, d: PageDirectory, sp': Space)
    requires SysOk(live, sps) && d in sps && SpaceOk(sp') && sp'.frames == []
    ensures SysOk(live - BlocksOf(live, sps[d].frames), sps[d := sp'])
  {
    hide SpaceOk;
    var live', sps' := live - BlocksOf(live, sps[d].frames), sps[d := sp'];
    forall b | b in live ensures b in live' <==> !OwnsAddr(sps[d], Addr(b)) {
    }
    forall e, j | e in sps' && 0 <= j < |sps'[e].frames| ensures Backed(live', sps'[e].frames[j]) {
      var x := sps[e].frames[j];
      assert OwnsAddr(sps[e], x.addr);
      assert Backed(live, x);
      var c :| c in live && Backs(c, x);
      assert c in live';
    }
    forall c | c in live' ensures SomeOwner(sps', Addr(c)) {
      assert SomeOwner(sps, Addr(c));
      var e: PageDirectory :| e in sps && OwnsAddr(sps[e], Addr(c));
      assert e in sps' && OwnsAddr(sps'[e], Addr(c));
    }
  }

  lemma SysNewDirectory(live: set<Block>, sps: Spaces, d: PageDirectory, sp: Space)
    requires SysOk(live, sps) && d !in sps && SpaceOk(sp) && sp.frames == []
    ensures SysOk(live, sps[d := sp])
  {
    hide SpaceOk;
    forall c | c in live ensures SomeOwner(sps[d := sp], Addr(c)) {
      assert SomeOwner(sps, Addr(c));
      var e: PageDirectory :| e in sps && OwnsAddr(sps[e], Addr(c));
      assert e in sps[d := sp] && OwnsAddr(sps[d := sp][e], Addr(c));
    }
  }

  /** Blocks allocated at the same time never share a page. */
  lemma LiveBlocksOk(n: nat, roots: set<Block>, S: Forest)
    requires Rooted(n, roots, S)
    ensures LiveOk(Live(S))
  {
    forall b, c, p: nat | b in Live(S) && c in Live(S) && HasPage(b, p) && HasPage(c, p) ensures b == c {
      LeavesDisjoint(n, roots, S, Block(p, 0), b, c);
    }
  }

  lemma SysDropDirectory(live: set<Block>, sps: Spaces, d: PageDirectory)
    requires SysOk(live, sps) && d in sps && sps[d].frames == []
    ensures SysOk(live, sps - {d})
  {
    hide SpaceOk;
    forall c | c in live ensures SomeOwner(sps - {d}, Addr(c)) {
      assert SomeOwner(sps, Addr(c));
      var e: PageDirectory :| e in sps && OwnsAddr(sps[e], Addr(c));
      assert e in sps - {d} && OwnsAddr((sps - {d})[e], Addr(c));
    }
  }
}
