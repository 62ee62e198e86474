/**
  What user code may do with the pages the memory manager maps.  The hardware, like
  `pd_get_permissions`, asks both the page's entry and the directory entry of its table, and
  a table keeps the flags it was made with.
*/
module Access {
  import opened Machine
  import opened Paging
  import opened PageDirectories

  /**
    The access that comes with the new pages `s .. s+n`: their entries allow user code to read
    and write, and so do the tables made for them.  No other directory entry has changed.
  */
  ghost predicate Granted(dir: Dir, dir': Dir, s: nat, n: nat)
    requires DirOk(dir) && DirOk(dir')
  {
    && (forall q: nat :: s <= q < s + n && q < NUM_PAGES ==> Open(Pte(dir', q)))
    && (forall i :: 0 <= i < NUM_ENTRIES ==> TableGranted(dir[i], dir'[i], i, s, n))
  }

  predicate TableGranted(e: Pde, e': Pde, i: nat, s: nat, n: nat) {
    if PdePresent(e) || !InTable(i, s, n) then e'.flags == e.flags else Open(e'.flags)
  }

  /** User code can write a new page exactly when its table is new or allowed that before. */
  lemma NewPageAccess(dir: Dir, dir': Dir, s: nat, n: nat, q: nat)
    requires DirOk(dir) && DirOk(dir') && Granted(dir, dir', s, n) && s <= q < s + n && q < NUM_PAGES
    ensures UserWrites(dir', q) <==> !HasTable(dir, q) || Open(dir[q / NUM_ENTRIES].flags)
    ensures UserReads(dir', q) <==> !HasTable(dir, q) || UserMode(dir[q / NUM_ENTRIES].flags)
  {
    hide Writable, UserMode;
    var i := q / NUM_ENTRIES;
    assert InTable(i, s, n) && TableGranted(dir[i], dir'[i], i, s, n);
    assert Open(Pte(dir', q));
  }

  /** And with every other page it can do what it could. */
  lemma OldPageAccess(dir: Dir, dir': Dir, s: nat, n: nat, q: nat)
    requires DirOk(dir) && DirOk(dir') && Granted(dir, dir', s, n) && q < NUM_PAGES && Pte(dir', q) == Pte(dir, q)
    ensures UserWrites(dir', q) == UserWrites(dir, q) && UserReads(dir', q) == UserReads(dir, q)
  {
    hide Writable, UserMode;
    var i := q / NUM_ENTRIES;
    assert TableGranted(dir[i], dir'[i], i, s, n);
    if !HasTable(dir, q) { assert Pte(dir', q) == 0; }
  }

  /** Directory entries decide nothing when they keep their flags. */
  lemma SameFlagsAccess(dir: Dir, dir': Dir, q: nat)
    requires DirOk(dir) && DirOk(dir') && SameFlags(dir, dir') && q < NUM_PAGES && Pte(dir', q) == Pte(dir, q)
    ensures UserWrites(dir', q) == UserWrites(dir, q) && UserReads(dir', q) == UserReads(dir, q)
  {
    hide Writable, UserMode, Pte;
    assert dir'[q / NUM_ENTRIES].flags == dir[q / NUM_ENTRIES].flags;
  }

  /** What loading pages from `s` on with these flags leaves in the entries of both levels. */
  ghost predicate Flagged(dir: Dir, dir': Dir, s: nat, flags: seq<nat>, pdeFlags: seq<nat>)
    requires DirOk(dir) && DirOk(dir')
  {
    && (forall k :: 0 <= k < |flags| && s + k < NUM_PAGES ==> FlagsOf(Pte(dir', s + k)) == flags[k])
    && TablesMade(dir, dir', s, pdeFlags)
  }

  lemma SectionsFlagged(dir: Dir, dir': Dir, s: nat, flags: seq<nat>, pdeFlags: seq<nat>, a: nat)
    requires DirOk(dir) && DirOk(dir') && a % PAGE_SIZE == 0 && forall i :: 0 <= i < |flags| ==> flags[i] < PAGE_SIZE
    requires forall q: nat :: q < NUM_PAGES ==> Pte(dir', q) == PteAfterMap(dir, s, a, flags, q)
    requires TablesMade(dir, dir', s, pdeFlags)
    ensures Flagged(dir, dir', s, flags, pdeFlags)
  {
    hide AddFlags, DirOk, Pte, IsStart, IsEnd;
    forall k | 0 <= k < |flags| && s + k < NUM_PAGES ensures FlagsOf(Pte(dir', s + k)) == flags[k] {
      assert Pte(dir', s + k) == PteAfterMap(dir, s, a, flags, s + k);
      AddFlagsParts(a + k * PAGE_SIZE, flags[k]);
    }
  }

  /**
    User code can write a loaded page exactly when the page's own flags allow it and so do those
    of its table: the flags it had, or else those asked for with the first page in it.
  */
  lemma LoadedAccess(dir: Dir, dir': Dir, s: nat, flags: seq<nat>, pdeFlags: seq<nat>, k: nat)
    requires DirOk(dir) && DirOk(dir') && Flagged(dir, dir', s, flags, pdeFlags) && k < |flags| == |pdeFlags| && s + k < NUM_PAGES
    requires forall i :: 0 <= i < |pdeFlags| ==> EntryPresent(pdeFlags[i])
    ensures var i := (s + k) / NUM_ENTRIES;
      UserWrites(dir', s + k) <==> Open(flags[k]) && Open(if HasTable(dir, s + k) then dir[i].flags else pdeFlags[FirstIn(i, s)])
  {
    hide Writable, UserMode, EntryPresent;
    var i, e := (s + k) / NUM_ENTRIES, Pte(dir', s + k);
    assert InTable(i, s, |flags|) && dir'[i].flags == MadeFlags(dir[i], i, s, pdeFlags);
    FlagBits(e);
    AccessBits(e);
    assert FlagsOf(e) == flags[k];
  }

  const USER_RO: nat := 5

  /**
    A page between two sections is loaded read-only.  When it is the first of its table, the
    sections after it in that table are read-only whatever they ask for, and so is every page
    added there later.
  */
  lemma GapSpoilsTable(dir: Dir, dir': Dir, dir'': Dir, s: nat)
    requires DirOk(dir) && DirOk(dir') && DirOk(dir'') && s % NUM_ENTRIES == 0 && s + 2 < NUM_PAGES && !HasTable(dir, s)
    requires Flagged(dir, dir', s, [USER_RO, USER_WR], [USER_RO, USER_WR]) && Granted(dir', dir'', s + 2, 1)
    ensures Open(FlagsOf(Pte(dir', s + 1))) && UserReads(dir', s + 1) && !UserWrites(dir', s + 1)
    ensures Open(Pte(dir'', s + 2)) && UserReads(dir'', s + 2) && !UserWrites(dir'', s + 2)
  {
    hide Flagged, Granted, Pte;
    var i := s / NUM_ENTRIES;
    assert (s + 1) / NUM_ENTRIES == i && (s + 2) / NUM_ENTRIES == i;
    GapFlags(dir, dir', s);
    LoadedAccess(dir, dir', s, [USER_RO, USER_WR], [USER_RO, USER_WR], 1);
    NewPageAccess(dir', dir'', s + 2, 1, s + 2);
    GrantedAt(dir', dir'', s + 2, 1, s + 2);
    FlagBits(Pte(dir', s + 1));
    AccessBits(Pte(dir', s + 1));
  }

  lemma GrantedAt(dir: Dir, dir': Dir, s: nat, n: nat, q: nat)
    requires DirOk(dir) && DirOk(dir') && Granted(dir, dir', s, n) && s <= q < s + n && q < NUM_PAGES
    ensures Open(Pte(dir', q))
  {
    hide Open;
  }

  lemma GapFlags(dir: Dir, dir': Dir, s: nat)
    requires DirOk(dir) && DirOk(dir') && s % NUM_ENTRIES == 0 && s + 1 < NUM_PAGES && !HasTable(dir, s)
    requires Flagged(dir, dir', s, [USER_RO, USER_WR], [USER_RO, USER_WR])
    ensures dir'[s / NUM_ENTRIES].flags == USER_RO && FlagsOf(Pte(dir', s + 1)) == USER_WR
  {
    var i := s / NUM_ENTRIES;
    assert InTable(i, s, 2) && dir'[i].flags == MadeFlags(dir[i], i, s, [USER_RO, USER_WR]);
    assert [USER_RO, USER_WR][1] == USER_WR;
  }

  /** Mapping user pages leaves the kernel's translation alone. */
  lemma MapKeepsKernel(dir: Dir, dir': Dir, s: nat, a: nat, flags: seq<nat>, pdeFlags: seq<nat>)
    requires DirOk(dir) && DirOk(dir') && KernelMap(dir) && FIRST_USER_PAGE <= s
    requires forall q: nat :: q < NUM_PAGES ==> Pte(dir', q) == PteAfterMap(dir, s, a, flags, q)
    requires TablesMade(dir, dir', s, pdeFlags)
    ensures KernelMap(dir')
  {
    hide AddFlags, Pte, KernelMap;
    forall i | 0 <= i < NUM_KERNEL_PDE ensures dir'[i].flags == dir[i].flags {
      assert !InTable(i, s, |pdeFlags|) && dir'[i].flags == MadeFlags(dir[i], i, s, pdeFlags);
    }
    KernelStays(dir, dir');
  }
}
