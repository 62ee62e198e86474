/**
  Loading a program's sections: from the sections to the pages, each page with the flags of the
  section that decides them.
*/
module Loader {
  import opened Machine
  import opened Blocks
  import opened BuddyForest
  import opened FrameIndex
  import opened FrameAllocator
  import opened Paging
  import opened PageDirectories
  import opened Access
  import opened Spaces
  import opened VirtualMemory
  import opened Sections

  function LowEnd(q: nat): nat { q * PAGE_SIZE }
  function HighEnd(q: nat): nat { q * PAGE_SIZE + (PAGE_SIZE - 1) }

  predicate TouchesPage(s: Section, q: nat) { Touches(s, LowEnd(q), HighEnd(q)) }

  /** Section `k` is the first that contains an end of page `q`. */
  predicate Decides(secs: seq<Section>, q: nat, k: nat) {
    k < |secs| && TouchesPage(secs[k], q) && forall j :: 0 <= j < k ==> !TouchesPage(secs[j], q)
  }

  /** The flags page `q` is loaded with: those of the section that decides them, or read-only. */
  ghost predicate FlagsFor(secs: seq<Section>, q: nat, pte: nat, pde: nat) {
    || (exists k: nat :: Decides(secs, q, k) && pte == secs[k].pteFlags && pde == secs[k].pdeFlags)
    || ((forall k: nat :: !Decides(secs, q, k)) && pte == USER_RO && pde == USER_RO)
  }

  lemma {:induction false} SomeDecides(secs: seq<Section>, q: nat, n: nat) returns (k: nat)
    requires n < |secs| && TouchesPage(secs[n], q)
    ensures k <= n && Decides(secs, q, k)
    decreases n
  {
    hide TouchesPage;
    if j :| 0 <= j < n && TouchesPage(secs[j], q) { k := SomeDecides(secs, q, j); } else { k := n; }
  }

  /**
    When no other section reaches an end of the page, a section with bytes in the page gives it its
    flags unless it begins after the first byte of the page and ends before the last; then the page
    is read-only whatever the section asks for.
  */
  lemma LoneSection(secs: seq<Section>, q: nat, k: nat, pte: nat, pde: nat)
    requires k < |secs| && Proper(secs[k]) && q < NUM_PAGES && Overlaps(secs[k], LowEnd(q), HighEnd(q))
    requires forall j :: 0 <= j < |secs| && j != k ==> !TouchesPage(secs[j], q)
    requires FlagsFor(secs, q, pte, pde)
    ensures if LowEnd(q) < secs[k].start && secs[k].start + secs[k].len <= HighEnd(q) then pte == pde == USER_RO
      else pte == secs[k].pteFlags && pde == secs[k].pdeFlags
  {
    OverlooksExactly(secs[k], LowEnd(q), HighEnd(q));
    hide Touches;
    if TouchesPage(secs[k], q) { assert Decides(secs, q, k); }
  }

  /** An empty section at address 0 decides every page that no section before it decides. */
  lemma EmptyDecides(secs: seq<Section>, q: nat, k: nat)
    requires k < |secs| && secs[k].len == 0 && secs[k].start == 0 && q < NUM_PAGES
    requires forall j :: 0 <= j < k ==> !TouchesPage(secs[j], q)
    ensures Decides(secs, q, k)
  {
    EmptyClaims(secs[k], LowEnd(q), HighEnd(q));
  }

  /** What the flags of the sections must be for the page tables to make sense. */
  predicate FlagsOk(s: Section) { s.pteFlags < PAGE_SIZE && EntryPresent(s.pteFlags) && !IsStart(s.pteFlags) && EntryPresent(s.pdeFlags) }

  lemma FlagsForOk(secs: seq<Section>, q: nat, pte: nat, pde: nat)
    requires FlagsFor(secs, q, pte, pde) && forall i :: 0 <= i < |secs| ==> FlagsOk(secs[i])
    ensures pte < PAGE_SIZE && EntryPresent(pte) && !IsStart(pte) && EntryPresent(pde)
  {
    hide TouchesPage;
  }

  /** The flags of `n` pages from page `s` on. */
  method PageFlags(secs: seq<Section>, s: nat, n: nat) returns (flags: seq<nat>, pdeFlags: seq<nat>)
    ensures |flags| == |pdeFlags| == n && forall k :: 0 <= k < n ==> FlagsFor(secs, s + k, flags[k], pdeFlags[k])
  {
    hide FlagsFor, Touches;
    flags, pdeFlags := [], [];
    for i := 0 to n
      invariant |flags| == |pdeFlags| == i && forall k :: 0 <= k < i ==> FlagsFor(secs, s + k, flags[k], pdeFlags[k])
    {
      var code, k := FindSection(secs, LowEnd(s + i), HighEnd(s + i));
      var pte, pde := USER_RO, USER_RO;
      if code == 0 { pte, pde := secs[k].pteFlags, secs[k].pdeFlags; }
      assert FlagsFor(secs, s + i, pte, pde) by { ItsFlags(secs, s + i, code, k); }
      flags, pdeFlags := flags + [pte], pdeFlags + [pde];
    }
  }

  lemma ItsFlags(secs: seq<Section>, q: nat, code: int, k: nat)
    requires code == 0 ==> Decides(secs, q, k)
    requires code != 0 ==> forall j :: 0 <= j < |secs| ==> !TouchesPage(secs[j], q)
    ensures if code == 0 then FlagsFor(secs, q, secs[k].pteFlags, secs[k].pdeFlags) else FlagsFor(secs, q, USER_RO, USER_RO)
  {
    hide TouchesPage;
  }

  /** The pages from the lowest section to the highest are free. */
  ghost predicate RangeFree(dir: Dir, secs: seq<Section>)
    requires DirOk(dir)
  {
    forall low: nat, high: nat :: Bounds(secs, low, high) ==> NoneMapped(dir, low / PAGE_SIZE, PageCount(low, high))
  }

  /** What a caller passes: sections in user space, not all of them empty if there are any. */
  predicate SectionsOk(secs: seq<Section>) {
    && (forall i :: 0 <= i < |secs| ==> FlagsOk(secs[i]) && (secs[i].len == 0 || (Proper(secs[i]) && USER_MEM_START <= secs[i].start)))
    && (secs != [] ==> exists i :: 0 <= i < |secs| && secs[i].len > 0)
  }

  /**
    Loads the sections of a program into free pages, all of them in one frame.  Each page from the
    first to the last has the flags of its section, and so has each table made for it.
  */
  method LoadSections(vmm: Vmm, pd: PageDirectory, secs: seq<Section>)
    returns (r: int, low: nat, high: nat, flags: seq<nat>, pdeFlags: seq<nat>, ghost b: Block)
    requires vmm.Valid() && pd in vmm.pds && SectionsOk(secs) && RangeFree(pd.dir, secs)
    modifies vmm`mem, pd, vmm.fm, vmm.fm.Repr
    ensures vmm.Valid() && vmm.pds == old(vmm.pds) && vmm.fm.roots == old(vmm.fm.roots) && vmm.fm.numBins == old(vmm.fm.numBins)
    ensures (r == -1 <==> secs == []) && (secs != [] ==> Bounds(secs, low, high) && PAGE_SIZE <= low <= high < WORD)
    ensures |flags| == |pdeFlags| == if r == -1 then 0 else PageCount(low, high)
    ensures forall k :: 0 <= k < |flags| ==> FlagsFor(secs, low / PAGE_SIZE + k, flags[k], pdeFlags[k])
    ensures r == 0 || r == -1 || r == -2
    ensures r == 0 <==> secs != [] && (|flags| == 0 || Room(vmm.fm.numBins, vmm.fm.roots, old(vmm.fm.S), |flags|))
    ensures |flags| == 0 || r < 0 ==> pd.dir == old(pd.dir) && pd.frames == old(pd.frames) && vmm.fm.S == old(vmm.fm.S)
    ensures r == 0 && |flags| > 0 ==> Added(old(pd.dir), pd.dir, low / PAGE_SIZE, |flags|, Addr(b))
    ensures r == 0 && |flags| > 0 ==> DirOk(old(pd.dir)) && Flagged(old(pd.dir), pd.dir, low / PAGE_SIZE, flags, pdeFlags)
    ensures r == 0 && |flags| > 0 ==> pd.frames == [Meta(Addr(b), |flags|)] + old(pd.frames) && Live(vmm.fm.S) == Live(old(vmm.fm.S)) + {b}
  {
    hide Vmm.Valid, Added, Flagged, NoneMapped, Live, Addr, Room, IsStart, FlagsFor, PageCount, Bounds, WellMarked, Taken, ZeroBytes, DirOk;
    b, low, high, flags, pdeFlags := Block(0, 0), 0, 0, [], [];
    if secs == [] { return -1, low, high, flags, pdeFlags, b; }
    var code;
    code, low, high := GetBounds(secs);
    assert USER_MEM_START <= low by { LowIsUser(secs, low, high); }
    PageSpan(low, high);
    flags, pdeFlags := PageFlags(secs, low / PAGE_SIZE, PageCount(low, high));
    forall i | 0 <= i < |flags| ensures flags[i] < PAGE_SIZE && EntryPresent(flags[i]) && !IsStart(flags[i]) && EntryPresent(pdeFlags[i]) {
      FlagsForOk(secs, low / PAGE_SIZE + i, flags[i], pdeFlags[i]);
    }
    assert AlignDown(low) == low / PAGE_SIZE * PAGE_SIZE;
    r, b := vmm.MapSections(pd, AlignDown(low), flags, pdeFlags);
  }

  lemma LowIsUser(secs: seq<Section>, low: nat, high: nat)
    requires SectionsOk(secs) && Bounds(secs, low, high)
    ensures USER_MEM_START <= low
  {
  }

  /**
    What comes of it for a page that one section alone has bytes at the ends of: user code can
    write it exactly when the section reaches an end of the page, asks for that, and its table,
    old or made with the first page in it, allows it.
  */
  lemma LoadedSection(dir: Dir, dir': Dir, secs: seq<Section>, s: nat, flags: seq<nat>, pdeFlags: seq<nat>, i: nat, k: nat)
    requires DirOk(dir) && DirOk(dir') && Flagged(dir, dir', s, flags, pdeFlags) && i < |flags| == |pdeFlags| && s + i < NUM_PAGES
    requires forall j :: 0 <= j < |flags| ==> FlagsFor(secs, s + j, flags[j], pdeFlags[j])
    requires (forall j :: 0 <= j < |secs| ==> FlagsOk(secs[j])) && k < |secs| && Proper(secs[k])
    requires Overlaps(secs[k], LowEnd(s + i), HighEnd(s + i))
    requires forall j :: 0 <= j < |secs| && j != k ==> !TouchesPage(secs[j], s + i)
    ensures var t := (s + i) / NUM_ENTRIES;
      UserWrites(dir', s + i) <==>
        && TouchesPage(secs[k], s + i) && Open(secs[k].pteFlags)
        && Open(if HasTable(dir, s + i) then dir[t].flags else pdeFlags[FirstIn(t, s)])
  {
    hide Flagged, FlagsFor, UserWrites, IsStart, Writable, UserMode, EntryPresent, Touches;
    forall j | 0 <= j < |pdeFlags| ensures EntryPresent(pdeFlags[j]) { FlagsForOk(secs, s + j, flags[j], pdeFlags[j]); }
    LoadedAccess(dir, dir', s, flags, pdeFlags, i);
    LoneSection(secs, s + i, k, flags[i], pdeFlags[i]);
    OverlooksExactly(secs[k], LowEnd(s + i), HighEnd(s + i));
    ReadOnlyFlags();
  }

  lemma ReadOnlyFlags()
    ensures !Open(USER_RO)
  {
  }
}
