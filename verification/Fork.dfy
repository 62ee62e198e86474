/**
  Copying an address space for fork: every mapped user page of the source gets the next
  physical page of one frame, in ascending virtual order.
*/
module Fork {
  import opened Machine
  import opened Paging
  import opened PageDirectories
  import opened Spaces

  /** Number of mapped user pages below page `p`. */
  function Rank(dir: Dir, p: nat): nat
    requires DirOk(dir) && p <= NUM_PAGES
  {
    if p <= FIRST_USER_PAGE then 0 else Rank(dir, p - 1) + (if Mapped(dir, p - 1) then 1 else 0)
  }

  lemma {:induction false} RankMono(dir: Dir, p: nat, q: nat)
    requires DirOk(dir) && p <= q <= NUM_PAGES
    ensures Rank(dir, p) <= Rank(dir, q)
    ensures p < q && UserMapped(dir, p) ==> Rank(dir, p) < Rank(dir, q)
    decreases q
  {
    if p < q {
      RankMono(dir, p, q - 1);
      if p == q - 1 { assert UserMapped(dir, p) ==> Rank(dir, q) == Rank(dir, p) + 1; }
    }
  }

  lemma {:induction false} RankInjective(dir: Dir, p: nat, q: nat)
    requires DirOk(dir) && UserMapped(dir, p) && UserMapped(dir, q) && Rank(dir, p) == Rank(dir, q)
    ensures p == q
  {
    if p < q { RankMono(dir, p, q); }
    if q < p { RankMono(dir, q, p); }
  }

  lemma {:induction false} RankCounts(dir: Dir, p: nat)
    requires DirOk(dir) && FIRST_USER_PAGE <= p <= NUM_PAGES
    ensures Rank(dir, p) == |MappedBelow(dir, p)|
    decreases p
  {
    hide Pte, DirOk;
    if p == FIRST_USER_PAGE {
      assert MappedBelow(dir, p) == {};
    } else {
      RankCounts(dir, p - 1);
      if Mapped(dir, p - 1) {
        assert MappedBelow(dir, p) == MappedBelow(dir, p - 1) + {p - 1};
      } else {
        assert MappedBelow(dir, p) == MappedBelow(dir, p - 1);
      }
    }
  }

  function MappedBelow(dir: Dir, p: nat): set<nat>
    requires DirOk(dir) && p <= NUM_PAGES
  {
    set q: nat | FIRST_USER_PAGE <= q < p && Mapped(dir, q)
  }

  lemma RankTotal(dir: Dir)
    requires DirOk(dir)
    ensures Rank(dir, NUM_PAGES) == |MappedSet(dir)|
  {
    RankCounts(dir, NUM_PAGES);
    assert MappedBelow(dir, NUM_PAGES) == MappedSet(dir);
  }

  /** The entry the copy of page `q` gets when the copy's frame is based at `a`. */
  function CopyPte(src: Dir, a: nat, q: nat): nat
    requires DirOk(src) && q < NUM_PAGES
  {
    if UserMapped(src, q) then AddFlags(a + Rank(src, q) * PAGE_SIZE, FlagsOf(Pte(src, q))) else 0
  }

  /** `dst` is the fork of `src` into the frame based at `a`. */
  ghost predicate IsFork(src: Dir, dst: Dir, a: nat)
    requires DirOk(src) && DirOk(dst)
  {
    a % PAGE_SIZE == 0 && SameTables(src, dst) && forall q: nat :: User(q) ==> Pte(dst, q) == CopyPte(src, a, q)
  }

  /** There is a user table where the source has one, and with the same flags. */
  ghost predicate SameTables(src: Dir, dst: Dir)
    requires DirOk(src) && DirOk(dst)
  {
    forall i :: NUM_KERNEL_PDE <= i < NUM_ENTRIES ==> SameTable(src[i], dst[i])
  }

  predicate SameTable(e: Pde, e': Pde) { PdePresent(e') == PdePresent(e) && (PdePresent(e) ==> e'.flags == e.flags) }

  /** User code can do with a page of the copy what it can do with the page of the source. */
  lemma ForkAccess(src: Dir, dst: Dir, a: nat, q: nat)
    requires DirOk(src) && DirOk(dst) && IsFork(src, dst, a) && User(q)
    ensures HasTable(dst, q) == HasTable(src, q)
    ensures UserReads(dst, q) == UserReads(src, q) && UserWrites(dst, q) == UserWrites(src, q)
  {
    hide Rank, IsStart, IsEnd, AddFlags, Writable, UserMode, CopyPte;
    var i := q / NUM_ENTRIES;
    assert SameTable(src[i], dst[i]);
    ForkTranslation(src, dst, a, q);
    if Mapped(src, q) {
      AccessBits(Pte(src, q));
      AccessBits(Pte(dst, q));
    }
  }

  lemma CopyPteParts(src: Dir, a: nat, q: nat)
    requires DirOk(src) && UserMapped(src, q) && a % PAGE_SIZE == 0
    ensures var e := CopyPte(src, a, q);
      Phys(e) == a / PAGE_SIZE + Rank(src, q) && EntryPresent(e) && FlagsOf(e) == FlagsOf(Pte(src, q))
    ensures var e := CopyPte(src, a, q);
      IsStart(e) == IsStart(Pte(src, q)) && IsEnd(e) == IsEnd(Pte(src, q)) && RemoveFlags(e) == a + Rank(src, q) * PAGE_SIZE
  {
    hide AddFlags, Rank, Pte, DirOk, IsStart, IsEnd;
    var x := a + Rank(src, q) * PAGE_SIZE;
    AddFlagsParts(x, FlagsOf(Pte(src, q)));
    FlagBits(Pte(src, q));
    assert x / PAGE_SIZE == a / PAGE_SIZE + Rank(src, q);
  }

  /** Same pages mapped, same flags, consecutive physical pages in ascending virtual order. */
  lemma ForkTranslation(src: Dir, dst: Dir, a: nat, q: nat)
    requires DirOk(src) && DirOk(dst) && IsFork(src, dst, a) && User(q)
    ensures Mapped(dst, q) == Mapped(src, q)
    ensures Mapped(src, q) ==> FlagsOf(Pte(dst, q)) == FlagsOf(Pte(src, q)) && Phys(Pte(dst, q)) == a / PAGE_SIZE + Rank(src, q)
    ensures Mapped(src, q) ==> IsStart(Pte(dst, q)) == IsStart(Pte(src, q)) && IsEnd(Pte(dst, q)) == IsEnd(Pte(src, q))
    ensures Mapped(src, q) ==> RemoveFlags(Pte(dst, q)) == a + Rank(src, q) * PAGE_SIZE
  {
    hide Rank, DirOk, IsStart, IsEnd, AddFlags;
    if Mapped(src, q) { CopyPteParts(src, a, q); }
  }

  lemma ForkRegion(src: Dir, dst: Dir, a: nat, s: nat, n: nat)
    requires DirOk(src) && DirOk(dst) && IsFork(src, dst, a)
    ensures Region(src, s, n) <==> Region(dst, s, n)
  {
    hide Rank, DirOk, IsStart, IsEnd, AddFlags, Pte, IsFork;
    if FIRST_USER_PAGE <= s && s + n <= NUM_PAGES {
      forall q: nat | s <= q < s + n
        ensures UserMapped(dst, q) == UserMapped(src, q)
        ensures UserMapped(src, q) ==> IsStart(Pte(dst, q)) == IsStart(Pte(src, q)) && IsEnd(Pte(dst, q)) == IsEnd(Pte(src, q))
      {
        ForkTranslation(src, dst, a, q);
      }
    }
  }

  /**
    A region starting at the lowest mapped page is all there is.  (In particular the
    condition holds whenever the lowest mapped page does not start a region.)
  */
  ghost predicate ForkSafe(dir: Dir)
    requires DirOk(dir)
  {
    forall s: nat, n: nat :: Region(dir, s, n) && Rank(dir, s) == 0 ==> n == |MappedSet(dir)|
  }

  lemma ForkMapped(src: Dir, dst: Dir, a: nat)
    requires DirOk(src) && DirOk(dst) && IsFork(src, dst, a)
    ensures MappedSet(dst) == MappedSet(src)
  {
    hide Rank, DirOk, Pte, IsFork;
    forall q: nat | User(q) ensures Mapped(dst, q) == Mapped(src, q) { ForkTranslation(src, dst, a, q); }
  }

  lemma RankBound(dir: Dir, q: nat)
    requires DirOk(dir) && UserMapped(dir, q)
    ensures Rank(dir, q) < |MappedSet(dir)|
  {
    RankMono(dir, q, NUM_PAGES);
    RankTotal(dir);
  }

  lemma {:induction false} LowestRegionHolds(dir: Dir, s: nat, n: nat, q: nat)
    requires DirOk(dir) && Region(dir, s, n) && Rank(dir, s) == 0 && n == |MappedSet(dir)| && UserMapped(dir, q)
    ensures s <= q < s + n
  {
    hide Rank, Pte;
    RangeSize(s, n);
    forall p | p in Range(s, n) ensures p in MappedSet(dir) { assert UserMapped(dir, p); }
    assert Range(s, n) <= MappedSet(dir);
    SubsetFull(Range(s, n), MappedSet(dir));
    assert q in MappedSet(dir);
  }

  lemma SubsetFull<T>(a: set<T>, b: set<T>)
    requires a <= b && |a| == |b|
    ensures a == b
  {
    assert |b - a| == |b| - |a|;
  }

  lemma ForkExclusive(src: Dir, dst: Dir, a: nat)
    requires DirOk(src) && DirOk(dst) && IsFork(src, dst, a) && ForkSafe(src)
    ensures FramesExclusive(Space(dst, [Meta(a, |MappedSet(src)|)]))
  {
    hide Rank, DirOk, IsStart, IsEnd, AddFlags, Pte, IsFork, MappedSet;
    var m := Meta(a, |MappedSet(src)|);
    forall s: nat, n: nat | Region(dst, s, n) && a == RemoveFlags(Pte(dst, s)) ensures Exclusive(dst, m, s, n) {
      ForkRegion(src, dst, a, s, n);
      RegionStart(src, s, n);
      ForkTranslation(src, dst, a, s);
      forall q: nat | UserMapped(dst, q) ensures s <= q < s + n {
        ForkTranslation(src, dst, a, q);
        LowestRegionHolds(src, s, n, q);
      }
    }
  }

  lemma RegionStart(dir: Dir, s: nat, n: nat)
    requires DirOk(dir) && Region(dir, s, n)
    ensures UserMapped(dir, s) && IsStart(Pte(dir, s))
  {
  }

  /** The forked space is in order exactly when the source is fork-safe. */
  lemma ForkSpaceOk(src: Dir, dst: Dir, a: nat)
    requires DirOk(src) && DirOk(dst) && IsFork(src, dst, a) && RegionsOk(src)
    ensures SpaceOk(Space(dst, [Meta(a, |MappedSet(src)|)])) <==> ForkSafe(src)
  {
    hide Rank, DirOk, IsStart, IsEnd, AddFlags, Pte, IsFork, MappedSet;
    var m := Meta(a, |MappedSet(src)|);
    var sp := Space(dst, [m]);
    ForkMapped(src, dst, a);
    assert SumPages([m]) == m.n + SumPages([m][1..]) == m.n;
    forall p: nat | UserMapped(dst, p) ensures OwnedBy([m], Phys(Pte(dst, p))) {
      ForkTranslation(src, dst, a, p);
      RankBound(src, p);
      assert InFrame([m][0], Phys(Pte(dst, p)));
    }
    forall s: nat | Starts(dst, s) ensures HasRegion(dst, s) {
      ForkTranslation(src, dst, a, s);
      assert Starts(src, s) && HasRegion(src, s);
      var n: nat :| Region(src, s, n);
      ForkRegion(src, dst, a, s, n);
    }
    if ForkSafe(src) {
      ForkExclusive(src, dst, a);
    }
    if SpaceOk(sp) {
      forall s: nat, n: nat | Region(src, s, n) && Rank(src, s) == 0 ensures n == |MappedSet(src)| {
        ForkRegion(src, dst, a, s, n);
        RegionStart(src, s, n);
        ForkTranslation(src, dst, a, s);
        assert Exclusive(dst, sp.frames[0], s, n);
      }
    }
  }

  /**
    What goes wrong otherwise: the fork of a space whose lowest region is not everything can
    remove that region, which gives back the only frame while other pages still point into it.
  */
  lemma UnsafeForkLeavesDangling(src: Dir, dst: Dir, a: nat, s: nat, n: nat, dir': Dir)
    requires DirOk(src) && DirOk(dst) && IsFork(src, dst, a) && Region(src, s, n) && Rank(src, s) == 0 && n < |MappedSet(src)|
    requires Dropped(dst, dir', s, n)
    ensures a == RemoveFlags(Pte(dst, s))
    ensures !Owned(Space(dir', Without([Meta(a, |MappedSet(src)|)], 0)))
  {
    hide Rank, DirOk, IsStart, IsEnd, AddFlags, Pte, IsFork;
    RegionStart(src, s, n);
    ForkTranslation(src, dst, a, s);
    RangeSize(s, n);
    if MappedSet(src) <= Range(s, n) { SubsetSize(MappedSet(src), Range(s, n)); }
    var q :| q in MappedSet(src) && q !in Range(s, n);
    ForkTranslation(src, dst, a, q);
    assert UserMapped(dir', q);
    assert !OwnedBy(Without([Meta(a, |MappedSet(src)|)], 0), Phys(Pte(dir', q)));
  }

  lemma SubsetSize<T>(a: set<T>, b: set<T>)
    requires a <= b
    ensures |a| <= |b|
  {
    assert b == a + (b - a);
  }

  // ---- Page contents -------------------------------------------------------

  /** The contents of one physical page. */
  type Content = seq<nat>

  function Load(mem: map<nat, Content>, f: nat): Content { if f in mem then mem[f] else [] }

  /** The mapped pages below `p` have been copied into the frame at `a`; all else is as in `mem0`. */
  ghost predicate MemCopied(mem0: map<nat, Content>, mem: map<nat, Content>, dir: Dir, a: nat, p: nat)
    requires DirOk(dir) && p <= NUM_PAGES
  {
    && (forall q: nat :: UserMapped(dir, q) && q < p ==> Load(mem, a / PAGE_SIZE + Rank(dir, q)) == Load(mem0, Phys(Pte(dir, q))))
    && (forall f: nat :: f < a / PAGE_SIZE || a / PAGE_SIZE + Rank(dir, p) <= f ==> Load(mem, f) == Load(mem0, f))
  }

  /** No page of the source lies in the frame that receives the copy. */
  ghost predicate SourceApart(dir: Dir, a: nat, n: nat)
    requires DirOk(dir)
  {
    forall q: nat :: UserMapped(dir, q) ==> Phys(Pte(dir, q)) < a / PAGE_SIZE || a / PAGE_SIZE + n <= Phys(Pte(dir, q))
  }

  lemma RankAtMost(dir: Dir, p: nat)
    requires DirOk(dir) && p <= NUM_PAGES
    ensures Rank(dir, p) <= |MappedSet(dir)|
  {
    RankMono(dir, p, NUM_PAGES);
    RankTotal(dir);
  }

  lemma MemCopyStep(mem0: map<nat, Content>, mem: map<nat, Content>, dir: Dir, a: nat, p: nat)
    requires DirOk(dir) && UserMapped(dir, p) && MemCopied(mem0, mem, dir, a, p) && SourceApart(dir, a, |MappedSet(dir)|)
    ensures Rank(dir, p + 1) == Rank(dir, p) + 1
    ensures MemCopied(mem0, mem[a / PAGE_SIZE + Rank(dir, p) := Load(mem, Phys(Pte(dir, p)))], dir, a, p + 1)
  {
    hide Pte, Rank, DirOk, MappedSet, Mapped;
    RankAtMost(dir, p);
    RankNext(dir, p);
    var e, base, g := Pte(dir, p), a / PAGE_SIZE, a / PAGE_SIZE + Rank(dir, p);
    var mem' := mem[g := Load(mem, Phys(e))];
    assert Load(mem, Phys(e)) == Load(mem0, Phys(e));
    forall q: nat | UserMapped(dir, q) && q < p + 1 ensures Load(mem', base + Rank(dir, q)) == Load(mem0, Phys(Pte(dir, q))) {
      if q < p { RankMono(dir, q, p); }
    }
    forall f: nat | f < base || base + Rank(dir, p + 1) <= f ensures Load(mem', f) == Load(mem0, f) {
    }
  }

  lemma RankNext(dir: Dir, p: nat)
    requires DirOk(dir) && UserMapped(dir, p)
    ensures Rank(dir, p + 1) == Rank(dir, p) + 1
  {
  }

  lemma {:induction false} RankSkip(dir: Dir, p: nat, n: nat)
    requires DirOk(dir) && FIRST_USER_PAGE <= p && p + n <= NUM_PAGES
    requires forall q: nat :: p <= q < p + n ==> !Mapped(dir, q)
    ensures Rank(dir, p + n) == Rank(dir, p)
    decreases n
  {
    if n > 0 { RankSkip(dir, p, n - 1); }
  }

  lemma MemCopySkip(mem0: map<nat, Content>, mem: map<nat, Content>, dir: Dir, a: nat, p: nat, n: nat)
    requires DirOk(dir) && FIRST_USER_PAGE <= p && p + n <= NUM_PAGES && MemCopied(mem0, mem, dir, a, p)
    requires forall q: nat :: p <= q < p + n ==> !Mapped(dir, q)
    ensures Rank(dir, p + n) == Rank(dir, p) && MemCopied(mem0, mem, dir, a, p + n)
  {
    RankSkip(dir, p, n);
  }
}
