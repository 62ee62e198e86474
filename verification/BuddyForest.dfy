/**
  The pure buddy forest: which blocks exist and what status each has.  The roots are
  the blocks created at initialisation; every other block is half of a `Parent`.
  Operations are the recursive split and the recursive join, and the theorems are
  about every forest reachable by them.
*/
module BuddyForest {
  import opened Machine
  import opened Blocks

  /** FRAME_DEALLOC, FRAME_ALLOC and FRAME_PARENT. */
  datatype Status = Free | Alloc | Parent

  type Forest = map<Block, Status>

  // ---- Well-formedness -----------------------------------------------------

  ghost predicate RootsOk(n: nat, roots: set<Block>) {
    && (forall r :: r in roots ==> r.i < n)
    && (forall r, s :: r in roots && s in roots && Within(r, s) ==> r == s)
  }

  /** Every block is a root or hangs below a `Parent`. */
  ghost predicate Rooted(n: nat, roots: set<Block>, S: Forest) {
    && RootsOk(n, roots)
    && roots <= S.Keys
    && (forall b :: b in S ==> b.i < n)
    && (forall b {:trigger Par(b)} :: b in S && b !in roots ==> Par(b) in S && S[Par(b)].Parent?)
  }

  predicate Halved(S: Forest, b: Block) { b.i > 0 && Left(b) in S && Right(b) in S }

  lemma RootedRoots(n: nat, roots: set<Block>, S: Forest)
    requires Rooted(n, roots, S)
    ensures RootsOk(n, roots)
  {
  }

  lemma GoodRoots(n: nat, roots: set<Block>, S: Forest)
    requires Good(n, roots, S)
    ensures RootsOk(n, roots)
  {
  }

  /** Every `Parent`, except those in `h`, is split into both of its halves. */
  ghost predicate FullExcept(S: Forest, h: set<Block>) {
    forall b {:trigger Halved(S, b)} :: b in S && S[b].Parent? && b !in h ==> Halved(S, b)
  }

  predicate BothFree(S: Forest, b: Block) {
    Halved(S, b) && S[Left(b)].Free? && S[Right(b)].Free?
  }

  /** No `Parent`, except those in `h`, has two free halves. */
  ghost predicate CoalescedExcept(S: Forest, h: set<Block>) {
    forall b {:trigger BothFree(S, b)} :: b in S && S[b].Parent? && b !in h ==> !BothFree(S, b)
  }

  lemma CoalescedWeaken(S: Forest, h: set<Block>)
    requires Coalesced(S)
    ensures CoalescedExcept(S, h)
  {
  }

  ghost predicate Wf(n: nat, roots: set<Block>, S: Forest) {
    Rooted(n, roots, S) && FullExcept(S, {})
  }

  ghost predicate Coalesced(S: Forest) { CoalescedExcept(S, {}) }

  /** The state between calls to the allocator. */
  ghost predicate Good(n: nat, roots: set<Block>, S: Forest) {
    Wf(n, roots, S) && Coalesced(S)
  }

  function Live(S: Forest): set<Block> { set b | b in S && S[b].Alloc? }

  function InitForest(roots: set<Block>): Forest { map r | r in roots :: Free }

  predicate IsLeaf(S: Forest, b: Block) { b in S && !S[b].Parent? }

  // ---- Climbing ------------------------------------------------------------

  lemma {:induction false} RootOf(n: nat, roots: set<Block>, S: Forest, b: Block) returns (r: Block)
    requires Rooted(n, roots, S) && b in S
    ensures r in roots && Within(b, r)
    decreases n - b.i
  {
    if b in roots {
      r := b;
    } else {
      r := RootOf(n, roots, S, Par(b));
      ParWithin(b);
      WithinTrans(b, Par(b), r);
    }
  }

  /** Everything strictly between a block of the forest and its root is a `Parent`. */
  lemma {:induction false} AncestorIsParent(n: nat, roots: set<Block>, S: Forest, x: Block, b: Block, r: Block)
    requires Rooted(n, roots, S) && x in S && Within(x, b) && x.i < b.i
    requires r in roots && Within(b, r)
    ensures b in S && S[b].Parent?
    decreases n - x.i
  {
    WithinTrans(x, b, r);
    assert x !in roots;
    if x.i + 1 == b.i {
      assert Up(x.m, 1) == Up(x.m / 2, 0);
      assert Par(x) == b;
    } else {
      WithinPar(x, b);
      AncestorIsParent(n, roots, S, Par(x), b, r);
    }
  }

  /** A block contained in a leaf of the forest is that leaf. */
  lemma NothingBelowLeaf(n: nat, roots: set<Block>, S: Forest, x: Block, b: Block)
    requires Rooted(n, roots, S) && x in S && IsLeaf(S, b) && Within(x, b)
    ensures x == b
  {
    if x.i < b.i {
      var r := RootOf(n, roots, S, b);
      AncestorIsParent(n, roots, S, x, b, r);
    }
  }

  /** Leaves that share any aligned sub-range are equal: allocated and free blocks never overlap. */
  lemma LeavesDisjoint(n: nat, roots: set<Block>, S: Forest, a: Block, b: Block, c: Block)
    requires Rooted(n, roots, S) && IsLeaf(S, b) && IsLeaf(S, c)
    requires Within(a, b) && Within(a, c)
    ensures b == c
  {
    if b.i <= c.i {
      WithinNested(a, b, c);
      NothingBelowLeaf(n, roots, S, b, c);
    } else {
      WithinNested(a, c, b);
      NothingBelowLeaf(n, roots, S, c, b);
    }
  }

  /** The address alone identifies a leaf, which is why two of the tables are keyed by it. */
  lemma LeafByAddress(n: nat, roots: set<Block>, S: Forest, b: Block, c: Block)
    requires Rooted(n, roots, S) && IsLeaf(S, b) && IsLeaf(S, c) && First(b) == First(c)
    ensures b == c
  {
    FirstPage(b);
    FirstPage(c);
    LeavesDisjoint(n, roots, S, Block(First(b), 0), b, c);
  }

  // ---- Tiling --------------------------------------------------------------

  ghost predicate Covered(roots: set<Block>, p: nat) { exists r :: r in roots && HasPage(r, p) }

  /** The roots are exactly the pages `0 .. total`. */
  ghost predicate Tiles(roots: set<Block>, total: nat) {
    forall p: nat :: p < total <==> Covered(roots, p)
  }

  lemma {:induction false} LeafAt(n: nat, roots: set<Block>, S: Forest, b: Block, p: nat) returns (l: Block)
    requires Wf(n, roots, S) && b in S && HasPage(b, p)
    ensures IsLeaf(S, l) && HasPage(l, p)
    decreases b.i
  {
    if S[b].Parent? {
      assert Halved(S, b);
      WithinChildren(Block(p, 0), b);
      l := LeafAt(n, roots, S, if HasPage(Left(b), p) then Left(b) else Right(b), p);
    } else {
      l := b;
    }
  }

  /**
    Tiling and conservation: in every well-formed forest over roots that tile `0 .. total`,
    each page of the range lies in exactly one leaf and no leaf reaches outside the range.
  */
  lemma Tiling(n: nat, roots: set<Block>, S: Forest, total: nat, p: nat)
    requires Wf(n, roots, S) && Tiles(roots, total)
    ensures p < total <==> exists l :: IsLeaf(S, l) && HasPage(l, p)
    ensures forall l, k :: IsLeaf(S, l) && IsLeaf(S, k) && HasPage(l, p) && HasPage(k, p) ==> l == k
  {
    assert p < total <==> Covered(roots, p);
    if Covered(roots, p) {
      var r :| r in roots && HasPage(r, p);
      var l := LeafAt(n, roots, S, r, p);
    }
    forall l | IsLeaf(S, l) && HasPage(l, p) ensures Covered(roots, p) { LeafCovered(n, roots, S, l, p); }
    forall l, k | IsLeaf(S, l) && IsLeaf(S, k) && HasPage(l, p) && HasPage(k, p) ensures l == k {
      LeavesDisjoint(n, roots, S, Block(p, 0), l, k);
    }
  }

  lemma LeafCovered(n: nat, roots: set<Block>, S: Forest, l: Block, p: nat)
    requires Rooted(n, roots, S) && l in S && HasPage(l, p)
    ensures Covered(roots, p)
  {
    var r := RootOf(n, roots, S, l);
    WithinTrans(Block(p, 0), l, r);
  }

  /** Every block of the forest lies inside the range, so no address leaves it. */
  lemma BlockInRange(n: nat, roots: set<Block>, S: Forest, total: nat, b: Block)
    requires Rooted(n, roots, S) && Tiles(roots, total) && b in S
    ensures First(b) + Pow2(b.i) <= total
  {
    var r := RootOf(n, roots, S, b);
    WithinPages(b, r);
    var p := First(r) + Pow2(r.i) - 1;
    PagesOfBlock(r, p);
    assert Covered(roots, p);
  }

  // ---- Canonical form ------------------------------------------------------

  /** A coalesced `Parent` always holds an allocated block. */
  lemma {:induction false} LiveBelow(n: nat, roots: set<Block>, S: Forest, b: Block) returns (v: Block)
    requires Good(n, roots, S) && b in S && S[b].Parent?
    ensures v in Live(S) && Within(v, b) && v.i < b.i
    decreases b.i
  {
    assert Halved(S, b);
    var c := if S[Left(b)].Free? then Right(b) else Left(b);
    ChildWithin(b);
    assert !BothFree(S, b);
    if S[c].Alloc? {
      v := c;
    } else {
      v := LiveBelow(n, roots, S, c);
      WithinTrans(v, c, b);
    }
  }

  lemma StatusFromLive(n: nat, roots: set<Block>, S: Forest, T: Forest, b: Block)
    requires Good(n, roots, S) && Good(n, roots, T) && Live(S) == Live(T)
    requires b in S && b in T
    ensures S[b] == T[b]
  {
    assert b in Live(S) <==> S[b].Alloc?;
    assert b in Live(T) <==> T[b].Alloc?;
    var r := RootOf(n, roots, S, b);
    if S[b].Parent? {
      var v := LiveBelow(n, roots, S, b);
      assert v in Live(T);
      AncestorIsParent(n, roots, T, v, b, r);
    }
    if T[b].Parent? {
      var v := LiveBelow(n, roots, T, b);
      assert v in Live(S);
      AncestorIsParent(n, roots, S, v, b, r);
    }
  }

  lemma {:induction false} BlockFromLive(n: nat, roots: set<Block>, S: Forest, T: Forest, b: Block)
    requires Good(n, roots, S) && Good(n, roots, T) && Live(S) == Live(T)
    requires b in S
    ensures b in T && S[b] == T[b]
    decreases n - b.i
  {
    if b !in roots {
      BlockFromLive(n, roots, S, T, Par(b));
      ParWithin(b);
      assert Halved(T, Par(b)) && b in {Left(Par(b)), Right(Par(b))};
    }
    StatusFromLive(n, roots, S, T, b);
  }

  /** Canonical form: the roots and the set of allocated blocks determine the whole forest. */
  lemma Canonical(n: nat, roots: set<Block>, S: Forest, T: Forest)
    requires Good(n, roots, S) && Good(n, roots, T) && Live(S) == Live(T)
    ensures S == T
  {
    forall b | b in S ensures b in T && S[b] == T[b] { BlockFromLive(n, roots, S, T, b); }
    forall b | b in T ensures b in S && S[b] == T[b] { BlockFromLive(n, roots, T, S, b); }
  }

  lemma InitGood(n: nat, roots: set<Block>)
    requires RootsOk(n, roots)
    ensures Good(n, roots, InitForest(roots)) && Live(InitForest(roots)) == {}
  {
  }

  // ---- Splitting and joining -----------------------------------------------

  function SplitAt(S: Forest, b: Block): Forest
    requires b.i > 0
  {
    S[b := Parent][Left(b) := Free][Right(b) := Free]
  }

  /** Split `c`, then its left half, and so on until a block of order `j` exists. */
  function SplitDown(S: Forest, c: Block, j: nat): Forest
    requires j <= c.i
    decreases c.i
  {
    if c.i == j then S else SplitDown(SplitAt(S, c), Left(c), j)
  }

  /** A free block of order at least `j`, and none that large is smaller. */
  ghost predicate BestFit(S: Forest, j: nat, c: Block) {
    c in S && S[c].Free? && j <= c.i && forall d :: d in S && S[d].Free? && j <= d.i ==> c.i <= d.i
  }

  lemma NotSplitYet(S: Forest, c: Block)
    ensures SplitDown(S, c, c.i) == S && Leftmost(c, c.i) == c
  {
  }

  /** The effect of a successful allocation of order `j` out of the free block `c`. */
  function Carve(S: Forest, c: Block, j: nat): Forest
    requires j <= c.i
  {
    SplitDown(S, c, j)[Leftmost(c, j) := Alloc]
  }

  /** The effect of freeing `b`: merge with a free buddy as far up as possible. */
  function Join(n: nat, roots: set<Block>, S: Forest, b: Block): Forest
    decreases n - b.i
  {
    if b.i < n && b !in roots && Buddy(b) in S && S[Buddy(b)].Free?
    then Join(n, roots, S - {b, Buddy(b)}, Par(b))
    else S[b := Free]
  }

  lemma SplitAtWf(n: nat, roots: set<Block>, S: Forest, c: Block)
    requires Wf(n, roots, S) && c in S && S[c].Free? && c.i > 0
    ensures Left(c) !in S && Right(c) !in S
    ensures Wf(n, roots, SplitAt(S, c)) && Live(SplitAt(S, c)) == Live(S)
  {
    ChildWithin(c);
    if Left(c) in S { NothingBelowLeaf(n, roots, S, Left(c), c); }
    if Right(c) in S { NothingBelowLeaf(n, roots, S, Right(c), c); }
    var T := SplitAt(S, c);
    forall b | b in T && T[b].Parent? ensures Halved(T, b) {
      if b != c { assert Halved(S, b); }
    }
    assert Live(T) == Live(S);
  }

  lemma SplitAtCoalesced(n: nat, roots: set<Block>, S: Forest, c: Block)
    requires Wf(n, roots, S) && c in S && S[c].Free? && c.i > 0
    requires CoalescedExcept(S, {Par(c)})
    ensures CoalescedExcept(SplitAt(S, c), {c})
  {
    SplitAtWf(n, roots, S, c);
    ChildWithin(c);
    ParWithin(c);
    var T := SplitAt(S, c);
    forall b | b in T && T[b].Parent? && b != c ensures !BothFree(T, b) {
      assert Halved(S, b);
      ChildWithin(b);
      if b == Par(c) {
        assert c in {Left(b), Right(b)};
      } else {
        assert !BothFree(S, b);
        assert Left(b) != Left(c) && Left(b) != Right(c) && Right(b) != Left(c) && Right(b) != Right(c);
      }
    }
  }

  /** Splitting once more at the bottom is what one level of the recursive request does. */
  lemma {:induction false} SplitDownStep(S: Forest, c: Block, j: nat)
    requires j < c.i
    ensures SplitDown(S, c, j) == SplitAt(SplitDown(S, c, j + 1), Leftmost(c, j + 1))
    decreases c.i
  {
    if c.i > j + 1 { SplitDownStep(SplitAt(S, c), Left(c), j); }
  }

  /** The invariant of the split recursion. */
  lemma {:induction false} SplitDownGood(n: nat, roots: set<Block>, S: Forest, c: Block, j: nat)
    requires Wf(n, roots, S) && c in S && S[c].Free? && j <= c.i
    requires CoalescedExcept(S, {Par(c)})
    ensures var T := SplitDown(S, c, j); var b := Leftmost(c, j);
      Wf(n, roots, T) && Live(T) == Live(S) && b in T && T[b].Free? && CoalescedExcept(T, {Par(b)})
    decreases c.i
  {
    if c.i > j {
      SplitAtWf(n, roots, S, c);
      SplitAtCoalesced(n, roots, S, c);
      ChildWithin(c);
      SplitDownGood(n, roots, SplitAt(S, c), Left(c), j);
    }
  }

  lemma AllocLeafGood(n: nat, roots: set<Block>, S: Forest, b: Block)
    requires Wf(n, roots, S) && b in S && S[b].Free? && CoalescedExcept(S, {Par(b)})
    ensures Good(n, roots, S[b := Alloc]) && Live(S[b := Alloc]) == Live(S) + {b}
  {
    var T := S[b := Alloc];
    ParWithin(b);
    forall p | p in T && T[p].Parent? ensures Halved(T, p) && !BothFree(T, p) {
      assert Halved(S, p);
      if p == Par(b) { assert b in {Left(p), Right(p)}; } else { assert !BothFree(S, p); }
    }
    assert Live(T) == Live(S) + {b};
  }

  /** A successful allocation adds exactly one allocated block and keeps the forest coalesced. */
  lemma CarveGood(n: nat, roots: set<Block>, S: Forest, c: Block, j: nat)
    requires Good(n, roots, S) && c in S && S[c].Free? && j <= c.i
    ensures Good(n, roots, Carve(S, c, j))
    ensures Leftmost(c, j) !in Live(S) && Live(Carve(S, c, j)) == Live(S) + {Leftmost(c, j)}
  {
    SplitDownGood(n, roots, S, c, j);
    AllocLeafGood(n, roots, SplitDown(S, c, j), Leftmost(c, j));
  }

  /** `b` is about to be merged or freed: it exists, has no halves, and all else is in order. */
  ghost predicate Pending(n: nat, roots: set<Block>, S: Forest, b: Block) {
    && Rooted(n, roots, S) && b in S && !S[b].Free?
    && (b.i > 0 ==> Left(b) !in S && Right(b) !in S)
    && FullExcept(S, {b}) && CoalescedExcept(S, {b})
  }

  lemma PendingFacts(n: nat, roots: set<Block>, S: Forest, b: Block)
    requires Pending(n, roots, S, b)
    ensures b in S && b.i < n && !S[b].Free?
  {
  }

  predicate Merges(roots: set<Block>, S: Forest, b: Block) {
    b !in roots && Buddy(b) in S && S[Buddy(b)].Free?
  }

  lemma MergeOnce(n: nat, roots: set<Block>, S: Forest, b: Block)
    requires Pending(n, roots, S, b) && Merges(roots, S, b)
    ensures Buddy(b) !in roots && Par(b) in S && S[Par(b)].Parent?
    ensures Pending(n, roots, S - {b, Buddy(b)}, Par(b))
    ensures Live(S - {b, Buddy(b)}) == Live(S) - {b}
  {
    var T, q := S - {b, Buddy(b)}, Par(b);
    ParWithin(b);
    BuddyNotRoot(n, roots, S, b);
    forall x | x in T && x !in roots ensures Par(x) in T && T[Par(x)].Parent? {
      ParWithin(x);
    }
    forall x | x in T && T[x].Parent? && x != q
      ensures Halved(T, x) && !BothFree(T, x)
    {
      assert Halved(S, x);
      ChildWithin(x);
      assert !BothFree(S, x);
    }
    assert Left(q) !in T && Right(q) !in T by { assert {Left(q), Right(q)} == {b, Buddy(b)}; }
    assert Live(T) == Live(S) - {b};
  }

  lemma BuddyNotRoot(n: nat, roots: set<Block>, S: Forest, b: Block)
    requires Rooted(n, roots, S) && b in S && b !in roots
    ensures Buddy(b) !in roots
  {
    if Buddy(b) in roots {
      ParWithin(b);
      ParWithin(Buddy(b));
      var r := RootOf(n, roots, S, Par(b));
      WithinTrans(Buddy(b), Par(b), r);
    }
  }

  lemma FreeLeafGood(n: nat, roots: set<Block>, S: Forest, b: Block)
    requires Pending(n, roots, S, b) && !Merges(roots, S, b)
    ensures Good(n, roots, S[b := Free]) && Live(S[b := Free]) == Live(S) - {b}
  {
    var T := S[b := Free];
    ParWithin(b);
    forall x | x in T && x !in roots ensures Par(x) in T && T[Par(x)].Parent? {
      ParWithin(x);
    }
    forall p | p in T && T[p].Parent? ensures Halved(T, p) && !BothFree(T, p) {
      assert Halved(S, p) && !BothFree(S, p);
      ChildWithin(p);
      if BothFree(T, p) {
        assert b == Left(p) || b == Right(p);
        assert p == Par(b) && Buddy(b) in S && S[Buddy(b)].Free?;
        assert b in roots;
        var r := RootOf(n, roots, S, p);
        WithinTrans(b, p, r);
      }
    }
    assert Live(T) == Live(S) - {b};
  }

  /** The invariant of the join recursion. */
  lemma {:induction false} JoinGood(n: nat, roots: set<Block>, S: Forest, b: Block)
    requires Pending(n, roots, S, b)
    ensures Good(n, roots, Join(n, roots, S, b))
    ensures Live(Join(n, roots, S, b)) == Live(S) - {b}
    decreases n - b.i
  {
    if Merges(roots, S, b) {
      MergeOnce(n, roots, S, b);
      JoinGood(n, roots, S - {b, Buddy(b)}, Par(b));
      assert Par(b) !in Live(S);
    } else {
      FreeLeafGood(n, roots, S, b);
    }
  }

  lemma LivePending(n: nat, roots: set<Block>, S: Forest, b: Block)
    requires Good(n, roots, S) && b in Live(S)
    ensures Pending(n, roots, S, b)
  {
    if b.i > 0 {
      ChildWithin(b);
      if Left(b) in S { NothingBelowLeaf(n, roots, S, Left(b), b); }
      if Right(b) in S { NothingBelowLeaf(n, roots, S, Right(b), b); }
    }
  }

  /** Freeing the block just allocated restores the forest exactly. */
  lemma FreeUndoesAlloc(n: nat, roots: set<Block>, S: Forest, c: Block, j: nat)
    requires Good(n, roots, S) && c in S && S[c].Free? && j <= c.i
    ensures Join(n, roots, Carve(S, c, j), Leftmost(c, j)) == S
  {
    CarveGood(n, roots, S, c, j);
    var T, b := Carve(S, c, j), Leftmost(c, j);
    LivePending(n, roots, T, b);
    JoinGood(n, roots, T, b);
    assert Live(Join(n, roots, T, b)) == Live(S);
    Canonical(n, roots, Join(n, roots, T, b), S);
  }

  // ---- Runs ----------------------------------------------------------------

  /** Allocate order `j` out of free block `c`, or free the allocated block `b`. */
  datatype Op = AllocOp(c: Block, j: nat) | FreeOp(b: Block)

  predicate Enabled(S: Forest, op: Op) {
    match op
    case AllocOp(c, j) => c in S && S[c].Free? && j <= c.i
    case FreeOp(b) => b in S && S[b].Alloc?
  }

  function Apply(n: nat, roots: set<Block>, S: Forest, op: Op): Forest
    requires Enabled(S, op)
  {
    match op
    case AllocOp(c, j) => Carve(S, c, j)
    case FreeOp(b) => Join(n, roots, S, b)
  }

  /** `T` is reached from `S` by the operations in order, each enabled when its turn comes. */
  predicate Reaches(n: nat, roots: set<Block>, S: Forest, ops: seq<Op>, T: Forest)
    decreases |ops|
  {
    if ops == [] then T == S
    else Enabled(S, ops[0]) && Reaches(n, roots, Apply(n, roots, S, ops[0]), ops[1..], T)
  }

  /** Runs can be joined. */
  lemma {:induction false} ReachesOn(n: nat, roots: set<Block>, S: Forest, ops: seq<Op>, T: Forest, more: seq<Op>, U: Forest)
    requires Reaches(n, roots, S, ops, T) && Reaches(n, roots, T, more, U)
    ensures Reaches(n, roots, S, ops + more, U)
    decreases |ops|
  {
    if ops == [] {
      assert ops + more == more;
    } else {
      ReachesOn(n, roots, Apply(n, roots, S, ops[0]), ops[1..], T, more, U);
      assert (ops + more)[1..] == ops[1..] + more;
    }
  }

  lemma {:induction false} RunGood(n: nat, roots: set<Block>, S: Forest, ops: seq<Op>, T: Forest)
    requires Good(n, roots, S) && Reaches(n, roots, S, ops, T)
    ensures Good(n, roots, T)
    decreases |ops|
  {
    if ops != [] {
      match ops[0] {
        case AllocOp(c, j) => CarveGood(n, roots, S, c, j);
        case FreeOp(b) =>
          LivePending(n, roots, S, b);
          JoinGood(n, roots, S, b);
      }
      RunGood(n, roots, Apply(n, roots, S, ops[0]), ops[1..], T);
    }
  }

  /**
    History independence: whatever was allocated and freed, in whatever order, two runs
    from initialisation that leave the same blocks allocated leave the same forest.
  */
  lemma RunsCanonical(n: nat, roots: set<Block>, ops: seq<Op>, ops': seq<Op>, T: Forest, T': Forest)
    requires RootsOk(n, roots)
    requires Reaches(n, roots, InitForest(roots), ops, T)
    requires Reaches(n, roots, InitForest(roots), ops', T')
    requires Live(T) == Live(T')
    ensures T == T'
  {
    InitGood(n, roots);
    RunGood(n, roots, InitForest(roots), ops, T);
    RunGood(n, roots, InitForest(roots), ops', T');
    Canonical(n, roots, T, T');
  }

  /** Once everything has been freed the forest is the one built at initialisation. */
  lemma AllFreedIsInit(n: nat, roots: set<Block>, ops: seq<Op>, T: Forest)
    requires RootsOk(n, roots)
    requires Reaches(n, roots, InitForest(roots), ops, T) && Live(T) == {}
    ensures T == InitForest(roots)
  {
    InitGood(n, roots);
    assert Reaches(n, roots, InitForest(roots), [], InitForest(roots));
    RunsCanonical(n, roots, ops, [], T, InitForest(roots));
  }

  // ---- Completeness --------------------------------------------------------

  /** `a` is an aligned range inside a root, and no page of it is allocated. */
  ghost predicate WhollyFree(roots: set<Block>, S: Forest, a: Block) {
    && (exists r :: r in roots && Within(a, r))
    && (forall v, p: nat :: v in Live(S) && HasPage(a, p) ==> !HasPage(v, p))
  }

  lemma {:induction false} FreeAbove(n: nat, roots: set<Block>, S: Forest, b: Block, a: Block) returns (c: Block)
    requires Good(n, roots, S) && b in S && Within(a, b) && WhollyFree(roots, S, a)
    ensures c in S && S[c].Free? && Within(a, c)
    decreases b.i
  {
    FirstPage(a);
    WithinTrans(Block(First(a), 0), a, b);
    assert b !in Live(S);
    if S[b].Free? {
      c := b;
    } else if a.i == b.i {
      assert a == b;
      var v := LiveBelow(n, roots, S, b);
      FirstPage(v);
      WithinTrans(Block(First(v), 0), v, b);
      assert false;
    } else {
      assert Halved(S, b);
      WithinChildren(a, b);
      c := FreeAbove(n, roots, S, if Within(a, Left(b)) then Left(b) else Right(b), a);
    }
  }

  /**
    Allocation completeness: a free block of order at least `j` exists exactly when some
    aligned range of `2^j` pages inside a root is wholly free.
  */
  lemma Completeness(n: nat, roots: set<Block>, S: Forest, j: nat)
    requires Good(n, roots, S)
    ensures (exists c :: c in S && S[c].Free? && j <= c.i) <==> (exists a: Block :: a.i == j && WhollyFree(roots, S, a))
  {
    forall c | c in S && S[c].Free? && j <= c.i
      ensures exists a: Block :: a.i == j && WhollyFree(roots, S, a)
    {
      var a := Leftmost(c, j);
      var r := RootOf(n, roots, S, c);
      LeftmostWithin(c, j);
      WithinTrans(a, c, r);
      forall v, p: nat | v in Live(S) && HasPage(a, p) ensures !HasPage(v, p) {
        WithinTrans(Block(p, 0), a, c);
        if HasPage(v, p) { LeavesDisjoint(n, roots, S, Block(p, 0), v, c); }
      }
      assert WhollyFree(roots, S, a);
    }
    forall a: Block | a.i == j && WhollyFree(roots, S, a)
      ensures exists c :: c in S && S[c].Free? && j <= c.i
    {
      var r :| r in roots && Within(a, r);
      var c := FreeAbove(n, roots, S, r, a);
    }
  }
}
