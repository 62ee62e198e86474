/**
  Frames and what it means for the bins and the three tables to describe a forest.
  The lemmas say how one change of status is mirrored in one table or one bin.
*/
module FrameIndex {
  import opened Machine
  import opened Lists
  import opened Blocks
  import opened BuddyForest

  class Frame {
    var addr: nat
    var numPages: nat
    var status: Status
    var i: nat
    var buddy: Frame?
    var parent: Frame?

    /** The fields fixed when a frame is created. */
    ghost function Shape(): (nat, nat, nat, Frame?, Frame?)
      reads this
    {
      (addr, numPages, i, buddy, parent)
    }

    constructor (addr: nat, numPages: nat, status: Status, i: nat, buddy: Frame?, parent: Frame?)
      ensures this.addr == addr && this.numPages == numPages && this.status == status && this.i == i
      ensures this.buddy == buddy && this.parent == parent
    {
      this.addr, this.numPages, this.status := addr, numPages, status;
      this.i, this.buddy, this.parent := i, buddy, parent;
    }
  }

  // ---- What the indexes must say -------------------------------------------

  function Addr(b: Block): nat { USER_MEM_START + PAGE_SIZE * First(b) }

  /** Key of a frame in the table for its status; parents share addresses with their left half. */
  function Key(st: Status, b: Block): nat {
    if st.Parent? then BitOr(Addr(b), b.i) else Addr(b)
  }

  predicate Has(S: Forest, b: Block, st: Status) { b in S && S[b] == st }

  /** The table holds exactly the frames of status `st`, each under its key. */
  ghost predicate TableOk(t: map<int, Frame>, F: map<Block, Frame>, S: Forest, st: Status) {
    && F.Keys == S.Keys
    && (forall b :: Has(S, b, st) ==> Key(st, b) in t && t[Key(st, b)] == F[b])
    && (forall a :: a in t ==> exists b :: Has(S, b, st) && Key(st, b) == a)
  }

  /** Bin `k` lists each free frame of order `k` once, and nothing else. */
  ghost predicate BinsOk(bins: seq<seq<Frame>>, F: map<Block, Frame>, S: Forest) {
    && F.Keys == S.Keys
    && (forall k :: 0 <= k < |bins| ==> Distinct(bins[k]))
    && (forall k, f :: 0 <= k < |bins| && f in bins[k] ==> exists b :: Has(S, b, Free) && b.i == k && F[b] == f)
    && (forall b :: Has(S, b, Free) ==> b.i < |bins| && F[b] in bins[b.i])
  }

  ghost predicate Injective(F: map<Block, Frame>) {
    forall b, c :: b in F && c in F && F[b] == F[c] ==> b == c
  }

  /** `S` and `S'` (with frames `F`, `F'`) agree on who has status `st`, except for `b`. */
  ghost predicate SameBut(S: Forest, F: map<Block, Frame>, S': Forest, F': map<Block, Frame>, st: Status, x: set<Block>) {
    && F.Keys == S.Keys && F'.Keys == S'.Keys
    && (forall c :: c !in x ==> (Has(S, c, st) <==> Has(S', c, st)))
    && (forall c :: c !in x && Has(S, c, st) ==> F[c] == F'[c])
  }

  lemma KeyUnique(n: nat, roots: set<Block>, S: Forest, st: Status, b: Block, c: Block)
    requires n <= 31 && Rooted(n, roots, S) && Has(S, b, st) && Has(S, c, st) && Key(st, b) == Key(st, c)
    ensures b == c
  {
    if st.Parent? {
      ParentKey(b);
      ParentKey(c);
      FirstInjective(b, c);
    } else {
      LeafByAddress(n, roots, S, b, c);
    }
  }

  /** `addr | i` keeps the address and the order apart. */
  lemma ParentKey(b: Block)
    requires b.i < 31
    ensures Key(Parent, b) == Addr(b) + b.i
    ensures Key(Parent, b) / PAGE_SIZE * PAGE_SIZE == Addr(b) && Key(Parent, b) % PAGE_SIZE == b.i
  {
    assert Addr(b) % PAGE_SIZE == 0;
    BitOrFlags(Addr(b), b.i);
  }

  lemma TableKeep(t: map<int, Frame>, S: Forest, F: map<Block, Frame>, S': Forest, F': map<Block, Frame>, st: Status)
    requires TableOk(t, F, S, st) && SameBut(S, F, S', F', st, {})
    ensures TableOk(t, F', S', st)
  {
    forall a | a in t ensures exists b :: Has(S', b, st) && Key(st, b) == a {
      var b :| Has(S, b, st) && Key(st, b) == a;
      assert Has(S', b, st);
    }
  }

  lemma TableAdd(t: map<int, Frame>, n: nat, roots: set<Block>, S: Forest, F: map<Block, Frame>, S': Forest, F': map<Block, Frame>, st: Status, b: Block)
    requires TableOk(t, F, S, st) && SameBut(S, F, S', F', st, {b})
    requires n <= 31 && Rooted(n, roots, S') && !Has(S, b, st) && Has(S', b, st)
    ensures Key(st, b) !in t && TableOk(t[Key(st, b) := F'[b]], F', S', st)
  {
    forall c | Has(S, c, st) ensures Key(st, c) != Key(st, b) {
      assert Has(S', c, st);
      if Key(st, c) == Key(st, b) { KeyUnique(n, roots, S', st, b, c); }
    }
    var t' := t[Key(st, b) := F'[b]];
    forall c | Has(S', c, st) ensures Key(st, c) in t' && t'[Key(st, c)] == F'[c] {
      if c != b { assert Has(S, c, st); }
    }
    forall a | a in t' ensures exists c :: Has(S', c, st) && Key(st, c) == a {
      if a != Key(st, b) {
        var c :| Has(S, c, st) && Key(st, c) == a;
        assert Has(S', c, st);
      }
    }
  }

  lemma TableDrop(t: map<int, Frame>, n: nat, roots: set<Block>, S: Forest, F: map<Block, Frame>, S': Forest, F': map<Block, Frame>, st: Status, b: Block)
    requires TableOk(t, F, S, st) && SameBut(S, F, S', F', st, {b})
    requires n <= 31 && Rooted(n, roots, S) && Has(S, b, st) && !Has(S', b, st)
    ensures Key(st, b) in t && t[Key(st, b)] == F[b] && TableOk(t - {Key(st, b)}, F', S', st)
  {
    var t' := t - {Key(st, b)};
    forall c | Has(S', c, st) ensures Key(st, c) in t' && t'[Key(st, c)] == F'[c] {
      assert Has(S, c, st);
      if Key(st, c) == Key(st, b) { KeyUnique(n, roots, S, st, b, c); }
    }
    forall a | a in t' ensures exists c :: Has(S', c, st) && Key(st, c) == a {
      var c :| Has(S, c, st) && Key(st, c) == a;
      assert Has(S', c, st);
    }
  }

  lemma BinsAdd(bins: seq<seq<Frame>>, S: Forest, F: map<Block, Frame>, S': Forest, F': map<Block, Frame>, b: Block)
    requires BinsOk(bins, F, S) && SameBut(S, F, S', F', Free, {b}) && Injective(F')
    requires !Has(S, b, Free) && Has(S', b, Free) && b.i < |bins|
    ensures BinsOk(bins[b.i := bins[b.i] + [F'[b]]], F', S')
  {
    var bins' := bins[b.i := bins[b.i] + [F'[b]]];
    forall k, f | 0 <= k < |bins| && f in bins[k]
      ensures exists c :: Has(S', c, Free) && c.i == k && F'[c] == f && c != b
    {
      var c :| Has(S, c, Free) && c.i == k && F[c] == f;
      assert Has(S', c, Free);
    }
    assert F'[b] !in bins[b.i];
    AppendDistinct(bins[b.i], F'[b]);
    forall k, f | 0 <= k < |bins'| && f in bins'[k] ensures exists c :: Has(S', c, Free) && c.i == k && F'[c] == f {
      if !(f in bins[k]) { assert k == b.i && f == F'[b]; }
    }
    forall c | Has(S', c, Free) ensures c.i < |bins'| && F'[c] in bins'[c.i] {
      if c == b {
        assert bins'[b.i][|bins[b.i]|] == F'[b];
      } else {
        assert Has(S, c, Free);
      }
    }
  }

  lemma BinsDrop(bins: seq<seq<Frame>>, S: Forest, F: map<Block, Frame>, S': Forest, F': map<Block, Frame>, b: Block)
    requires BinsOk(bins, F, S) && SameBut(S, F, S', F', Free, {b}) && Injective(F)
    requires Has(S, b, Free) && !Has(S', b, Free)
    ensures b.i < |bins| && BinsOk(bins[b.i := Unlink(bins[b.i], F[b])], F', S')
  {
    var bins' := bins[b.i := Unlink(bins[b.i], F[b])];
    UnlinkDistinct(bins[b.i], F[b]);
    forall k, f | 0 <= k < |bins'| && f in bins'[k] ensures exists c :: Has(S', c, Free) && c.i == k && F'[c] == f {
      if k == b.i { UnlinkMember(bins[k], F[b], f); }
      var c :| Has(S, c, Free) && c.i == k && F[c] == f;
      assert c != b;
      assert Has(S', c, Free);
    }
    forall c | Has(S', c, Free) ensures c.i < |bins'| && F'[c] in bins'[c.i] {
      assert Has(S, c, Free) && F[c] != F[b];
      if c.i == b.i { UnlinkMember(bins[c.i], F[b], F[c]); }
    }
  }

  // ---- The whole index -----------------------------------------------------

  /** Everything the allocator stores about the forest, except the frame records themselves. */
  datatype Index = Index(
    n: nat, roots: set<Block>, total: nat, S: Forest, F: map<Block, Frame>,
    allocs: map<int, Frame>, deallocs: map<int, Frame>, parents: map<int, Frame>, bins: seq<seq<Frame>>)

  ghost predicate IndexOk(ix: Index) {
    && 1 <= ix.n <= 31 && |ix.bins| == ix.n
    && Rooted(ix.n, ix.roots, ix.S) && Tiles(ix.roots, ix.total)
    && USER_MEM_START + PAGE_SIZE * ix.total <= WORD
    && ix.F.Keys == ix.S.Keys && Injective(ix.F)
    && TableOk(ix.allocs, ix.F, ix.S, Alloc) && TableOk(ix.deallocs, ix.F, ix.S, Free)
    && TableOk(ix.parents, ix.F, ix.S, Parent) && BinsOk(ix.bins, ix.F, ix.S)
  }

  lemma IndexFacts(ix: Index)
    requires IndexOk(ix)
    ensures 1 <= ix.n <= 31 && |ix.bins| == ix.n && ix.F.Keys == ix.S.Keys
    ensures Rooted(ix.n, ix.roots, ix.S) && Injective(ix.F)
  {
  }

  function AllocsWithout(ix: Index, b: Block): map<int, Frame>
    requires b in ix.S
  {
    if ix.S[b].Alloc? then ix.allocs - {Addr(b)} else ix.allocs
  }

  function ParentsWithout(ix: Index, b: Block): map<int, Frame>
    requires b in ix.S
  {
    if ix.S[b].Parent? then ix.parents - {Key(Parent, b)} else ix.parents
  }

  /** `b` and its free buddy are destroyed. */
  function Merged(ix: Index, b: Block): Index
    requires b in ix.S && Buddy(b) in ix.F && b.i < |ix.bins|
  {
    var c := Buddy(b);
    ix.(S := ix.S - {b, c}, F := ix.F - {b, c},
        allocs := AllocsWithout(ix, b), parents := ParentsWithout(ix, b),
        deallocs := ix.deallocs - {Addr(c)}, bins := ix.bins[b.i := Unlink(ix.bins[b.i], ix.F[c])])
  }

  lemma MergedOk(ix: Index, b: Block)
    requires IndexOk(ix) && Pending(ix.n, ix.roots, ix.S, b) && Merges(ix.roots, ix.S, b)
    ensures b in ix.F && Buddy(b) in ix.F && Par(b) in ix.F && Par(b) in ix.S && b.i < |ix.bins|
    ensures Key(ix.S[b], b) in if ix.S[b].Parent? then ix.parents else ix.allocs
    ensures Addr(Buddy(b)) in ix.deallocs && ix.deallocs[Addr(Buddy(b))] == ix.F[Buddy(b)]
    ensures IndexOk(Merged(ix, b))
    ensures Pending(ix.n, ix.roots, Merged(ix, b).S, Par(b)) && ix.S[Par(b)].Parent? && Buddy(b) !in ix.roots
  {
    hide TableOk, BinsOk, Rooted, Tiles, FullExcept, CoalescedExcept;
    var c, st := Buddy(b), ix.S[b];
    MergeOnce(ix.n, ix.roots, ix.S, b);
    ParWithin(b);
    var S, F := ix.S - {b, c}, ix.F - {b, c};
    if st.Parent? {
      TableDrop(ix.parents, ix.n, ix.roots, ix.S, ix.F, S, F, Parent, b);
      TableKeep(ix.allocs, ix.S, ix.F, S, F, Alloc);
    } else {
      TableDrop(ix.allocs, ix.n, ix.roots, ix.S, ix.F, S, F, Alloc, b);
      TableKeep(ix.parents, ix.S, ix.F, S, F, Parent);
    }
    TableDrop(ix.deallocs, ix.n, ix.roots, ix.S, ix.F, S, F, Free, c);
    BinsDrop(ix.bins, ix.S, ix.F, S, F, c);
  }

  /** `b` becomes free without merging. */
  function Freed(ix: Index, b: Block): Index
    requires b in ix.S && b in ix.F && b.i < |ix.bins|
  {
    ix.(S := ix.S[b := Free], allocs := AllocsWithout(ix, b), parents := ParentsWithout(ix, b),
        deallocs := ix.deallocs[Addr(b) := ix.F[b]], bins := ix.bins[b.i := ix.bins[b.i] + [ix.F[b]]])
  }

  lemma FreedOk(ix: Index, b: Block)
    requires IndexOk(ix) && Pending(ix.n, ix.roots, ix.S, b) && !Merges(ix.roots, ix.S, b)
    ensures b in ix.F && b.i < |ix.bins| && Addr(b) !in ix.deallocs
    ensures var t := if ix.S[b].Parent? then ix.parents else ix.allocs;
      Key(ix.S[b], b) in t && t[Key(ix.S[b], b)] == ix.F[b]
    ensures IndexOk(Freed(ix, b))
  {
    hide TableOk, BinsOk, Rooted, Tiles, FullExcept, CoalescedExcept;
    var st := ix.S[b];
    PendingFacts(ix.n, ix.roots, ix.S, b);
    FreeLeafGood(ix.n, ix.roots, ix.S, b);
    var S, F := ix.S[b := Free], ix.F;
    if st.Parent? {
      TableDrop(ix.parents, ix.n, ix.roots, ix.S, F, S, F, Parent, b);
      TableKeep(ix.allocs, ix.S, F, S, F, Alloc);
    } else {
      TableDrop(ix.allocs, ix.n, ix.roots, ix.S, F, S, F, Alloc, b);
      TableKeep(ix.parents, ix.S, F, S, F, Parent);
    }
    TableAdd(ix.deallocs, ix.n, ix.roots, ix.S, F, S, F, Free, b);
    BinsAdd(ix.bins, ix.S, F, S, F, b);
  }

  /** Every block of the forest ends inside the 32-bit physical address space. */
  lemma AddrInRange(ix: Index, b: Block)
    requires IndexOk(ix) && b in ix.S
    ensures Addr(b) + PAGE_SIZE * Pow2(b.i) <= WORD
  {
    BlockInRange(ix.n, ix.roots, ix.S, ix.total, b);
  }

  lemma FreeInBins(ix: Index, k: nat, f: Frame) returns (b: Block)
    requires IndexOk(ix) && k < |ix.bins| && f in ix.bins[k]
    ensures Has(ix.S, b, Free) && b.i == k && b in ix.F && ix.F[b] == f
  {
    b :| Has(ix.S, b, Free) && b.i == k && ix.F[b] == f;
  }

  /** Free block `b` becomes a parent with the new frames `l` and `r` as its halves. */
  function SplitIx(ix: Index, b: Block, l: Frame, r: Frame): Index
    requires b.i > 0 && b in ix.F && b.i < |ix.bins|
  {
    ix.(S := SplitAt(ix.S, b), F := ix.F[Left(b) := l][Right(b) := r],
        parents := ix.parents[Key(Parent, b) := ix.F[b]],
        deallocs := (ix.deallocs - {Addr(b)})[Addr(Left(b)) := l][Addr(Right(b)) := r],
        bins := ix.bins[b.i := Unlink(ix.bins[b.i], ix.F[b])][b.i - 1 := ix.bins[b.i - 1] + [l, r]])
  }

  ghost predicate NewFrame(F: map<Block, Frame>, f: Frame) { forall c :: c in F ==> F[c] != f }

  lemma {:induction false} SplitRooted(n: nat, roots: set<Block>, S: Forest, b: Block)
    requires Wf(n, roots, S) && Has(S, b, Free) && b.i > 0
    ensures var S1 := S[b := Parent]; var S2 := S1[Left(b) := Free];
      Rooted(n, roots, S1) && Rooted(n, roots, S2) && Rooted(n, roots, S2[Right(b) := Free])
    ensures Left(b) !in S && Right(b) !in S && Left(b) != Right(b) && Left(b) != b && Right(b) != b
  {
    SplitAtWf(n, roots, S, b);
    ChildWithin(b);
  }

  lemma SplitIxOk(ix: Index, b: Block, l: Frame, r: Frame)
    requires IndexOk(ix) && Wf(ix.n, ix.roots, ix.S) && Has(ix.S, b, Free) && b.i > 0
    requires NewFrame(ix.F, l) && NewFrame(ix.F, r) && l != r
    ensures b in ix.F && b.i < |ix.bins|
    ensures Addr(b) in ix.deallocs && ix.deallocs[Addr(b)] == ix.F[b] && Key(Parent, b) !in ix.parents
    ensures var d := ix.deallocs - {Addr(b)}; Addr(Left(b)) !in d && Addr(Right(b)) !in d[Addr(Left(b)) := l]
    ensures IndexOk(SplitIx(ix, b, l, r))
  {
    hide TableOk, BinsOk, Rooted, Tiles, FullExcept, Addr, Unlink;
    SplitRooted(ix.n, ix.roots, ix.S, b);
    OrderBound(ix, b);
    var S1 := ix.S[b := Parent];
    var S2 := S1[Left(b) := Free];
    var S3 := S2[Right(b) := Free];
    var F2 := ix.F[Left(b) := l];
    var F3 := F2[Right(b) := r];
    TableAdd(ix.parents, ix.n, ix.roots, ix.S, ix.F, S1, ix.F, Parent, b);
    TableKeep(ix.parents[Key(Parent, b) := ix.F[b]], S1, ix.F, S3, F3, Parent);
    TableKeep(ix.allocs, ix.S, ix.F, S3, F3, Alloc);
    var d1 := ix.deallocs - {Addr(b)};
    TableDrop(ix.deallocs, ix.n, ix.roots, ix.S, ix.F, S1, ix.F, Free, b);
    TableAdd(d1, ix.n, ix.roots, S1, ix.F, S2, F2, Free, Left(b));
    TableAdd(d1[Addr(Left(b)) := l], ix.n, ix.roots, S2, F2, S3, F3, Free, Right(b));
    SplitBins(ix, b, l, r);
  }

  lemma OrderBound(ix: Index, b: Block)
    requires IndexOk(ix) && b in ix.S
    ensures b.i < ix.n && b in ix.F
  {
  }

  lemma SplitBins(ix: Index, b: Block, l: Frame, r: Frame)
    requires IndexOk(ix) && Has(ix.S, b, Free) && b.i > 0 && b.i < |ix.bins| && b in ix.F
    requires Left(b) !in ix.S && Right(b) !in ix.S
    requires NewFrame(ix.F, l) && NewFrame(ix.F, r) && l != r
    ensures var ix' := SplitIx(ix, b, l, r); BinsOk(ix'.bins, ix'.F, ix'.S) && Injective(ix'.F)
  {
    hide TableOk, BinsOk, Rooted, Tiles, FullExcept, Addr, Unlink;
    var S1 := ix.S[b := Parent];
    var S2 := S1[Left(b) := Free];
    var S3 := S2[Right(b) := Free];
    var F2 := ix.F[Left(b) := l];
    var F3 := F2[Right(b) := r];
    var bins1 := ix.bins[b.i := Unlink(ix.bins[b.i], ix.F[b])];
    var bins2 := bins1[b.i - 1 := bins1[b.i - 1] + [l]];
    BinsDrop(ix.bins, ix.S, ix.F, S1, ix.F, b);
    BinsAdd(bins1, S1, ix.F, S2, F2, Left(b));
    BinsAdd(bins2, S2, F2, S3, F3, Right(b));
    assert ix.bins[b.i - 1] + [l] + [r] == ix.bins[b.i - 1] + [l, r];
    assert bins2[b.i - 1 := bins2[b.i - 1] + [r]] == SplitIx(ix, b, l, r).bins;
  }

  /** Free block `b` is handed out. */
  function AllocIx(ix: Index, b: Block): Index
    requires b in ix.F && b.i < |ix.bins|
  {
    ix.(S := ix.S[b := Alloc], allocs := ix.allocs[Addr(b) := ix.F[b]],
        deallocs := ix.deallocs - {Addr(b)}, bins := ix.bins[b.i := Unlink(ix.bins[b.i], ix.F[b])])
  }

  lemma AllocIxOk(ix: Index, b: Block)
    requires IndexOk(ix) && Has(ix.S, b, Free) && Rooted(ix.n, ix.roots, ix.S[b := Alloc])
    ensures b in ix.F && b.i < |ix.bins|
    ensures Addr(b) in ix.deallocs && Addr(b) !in ix.allocs
    ensures IndexOk(AllocIx(ix, b))
  {
    hide TableOk, BinsOk, Rooted, Tiles, Addr, Unlink;
    OrderBound(ix, b);
    var S := ix.S[b := Alloc];
    TableAdd(ix.allocs, ix.n, ix.roots, ix.S, ix.F, S, ix.F, Alloc, b);
    TableDrop(ix.deallocs, ix.n, ix.roots, ix.S, ix.F, S, ix.F, Free, b);
    TableKeep(ix.parents, ix.S, ix.F, S, ix.F, Parent);
    BinsDrop(ix.bins, ix.S, ix.F, S, ix.F, b);
  }

  // ---- Initialisation ------------------------------------------------------

  /** A new root right behind the ones already placed. */
  lemma AddRoot(n: nat, roots: set<Block>, p: nat, b: Block)
    requires RootsOk(n, roots) && Tiles(roots, p) && First(b) == p && b.i < n
    ensures b !in roots && RootsOk(n, roots + {b}) && Tiles(roots + {b}, p + Pow2(b.i))
  {
    FirstPage(b);
    assert !Covered(roots, p);
    forall r | r in roots ensures !Within(r, b) && !Within(b, r) {
      FirstPage(r);
      assert Covered(roots, First(r));
      if Within(r, b) { WithinPages(r, b); }
      if Within(b, r) { WithinTrans(Block(p, 0), b, r); }
    }
    assert Within(b, b);
    forall q: nat ensures q < p + Pow2(b.i) <==> Covered(roots + {b}, q) {
      PagesOfBlock(b, q);
      assert q < p <==> Covered(roots, q);
      if Covered(roots, q) {
        var r :| r in roots && HasPage(r, q);
        assert r in roots + {b};
      }
      if HasPage(b, q) { assert b in roots + {b}; }
    }
  }

  function RootIx(ix: Index, b: Block, f: Frame): Index
    requires b.i < |ix.bins|
  {
    ix.(roots := ix.roots + {b}, total := ix.total + Pow2(b.i), S := ix.S[b := Free], F := ix.F[b := f],
        deallocs := ix.deallocs[Addr(b) := f], bins := ix.bins[b.i := ix.bins[b.i] + [f]])
  }

  lemma RootIxOk(ix: Index, b: Block, f: Frame)
    requires IndexOk(ix) && ix.S == InitForest(ix.roots) && First(b) == ix.total && b.i < ix.n && NewFrame(ix.F, f)
    requires USER_MEM_START + PAGE_SIZE * (ix.total + Pow2(b.i)) <= WORD
    ensures b !in ix.roots && b !in ix.F && Addr(b) !in ix.deallocs
    ensures IndexOk(RootIx(ix, b, f)) && RootIx(ix, b, f).S == InitForest(ix.roots + {b})
  {
    hide TableOk, BinsOk, Tiles, Addr, First, RootsOk, Rooted;
    RootedRoots(ix.n, ix.roots, ix.S);
    AddRoot(ix.n, ix.roots, ix.total, b);
    var S, F := ix.S[b := Free], ix.F[b := f];
    AllRooted(ix.n, ix.roots + {b});
    assert S == InitForest(ix.roots + {b});
    TableAdd(ix.deallocs, ix.n, ix.roots + {b}, ix.S, ix.F, S, F, Free, b);
    TableKeep(ix.allocs, ix.S, ix.F, S, F, Alloc);
    TableKeep(ix.parents, ix.S, ix.F, S, F, Parent);
    BinsAdd(ix.bins, ix.S, ix.F, S, F, b);
  }

  lemma AllRooted(n: nat, roots: set<Block>)
    requires RootsOk(n, roots)
    ensures Rooted(n, roots, InitForest(roots))
  {
  }
}
