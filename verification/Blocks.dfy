/**
  Buddy blocks.  A block of order `i` is the `m`-th aligned run of `2^i` pages,
  counted from the first user page.  Naming a block by `(m, i)` instead of by its
  address makes "left half", "right half", "parent" and "buddy" linear arithmetic.
*/
module Blocks {
  import opened Machine

  datatype Block = Block(m: nat, i: nat)

  /** The ancestor index reached by halving `m` exactly `k` times. */
  function Up(m: nat, k: nat): nat {
    if k == 0 then m else Up(m / 2, k - 1)
  }

  function Left(b: Block): Block
    requires b.i > 0
  {
    Block(2 * b.m, b.i - 1)
  }

  function Right(b: Block): Block
    requires b.i > 0
  {
    Block(2 * b.m + 1, b.i - 1)
  }

  function Par(b: Block): Block { Block(b.m / 2, b.i + 1) }

  function Buddy(b: Block): Block {
    if b.m % 2 == 0 then Block(b.m + 1, b.i) else Block(b.m - 1, b.i)
  }

  /** Containment of aligned ranges. */
  predicate Within(a: Block, b: Block) {
    a.i <= b.i && Up(a.m, b.i - a.i) == b.m
  }

  predicate HasPage(b: Block, p: nat) { Within(Block(p, 0), b) }

  /** First page of the block, relative to the first user page. */
  function First(b: Block): nat { b.m * Pow2(b.i) }

  /** The leftmost descendant of `c` at order `j`: what repeated splitting hands out. */
  function Leftmost(c: Block, j: nat): (r: Block)
    requires j <= c.i
    ensures r.i == j
    decreases c.i
  {
    if c.i == j then c else Leftmost(Left(c), j)
  }

  // ---- Up and Within -------------------------------------------------------

  lemma {:induction false} UpPlus(m: nat, j: nat, k: nat)
    ensures Up(Up(m, j), k) == Up(m, j + k)
    decreases j
  {
    if j > 0 { UpPlus(m / 2, j - 1, k); }
  }

  lemma UpStep(m: nat, k: nat)
    ensures Up(m, k + 1) == Up(m, k) / 2
  {
    UpPlus(m, k, 1);
    assert Up(Up(m, k), 1) == Up(Up(m, k) / 2, 0);
  }

  lemma WithinTrans(a: Block, b: Block, c: Block)
    requires Within(a, b) && Within(b, c)
    ensures Within(a, c)
  {
    UpPlus(a.m, b.i - a.i, c.i - b.i);
  }

  /** Two blocks holding a common block are nested. */
  lemma WithinNested(a: Block, b: Block, c: Block)
    requires Within(a, b) && Within(a, c) && b.i <= c.i
    ensures Within(b, c)
  {
    UpPlus(a.m, b.i - a.i, c.i - b.i);
  }

  lemma WithinPar(a: Block, b: Block)
    requires Within(a, b) && a.i < b.i
    ensures Within(Par(a), b)
  {
    assert Up(a.m, b.i - a.i) == Up(a.m / 2, b.i - a.i - 1);
  }

  lemma WithinChildren(a: Block, b: Block)
    requires Within(a, b) && a.i < b.i
    ensures Within(a, Left(b)) || Within(a, Right(b))
  {
    UpStep(a.m, b.i - a.i - 1);
  }

  lemma ChildWithin(b: Block)
    requires b.i > 0
    ensures Within(Left(b), b) && Within(Right(b), b)
    ensures Par(Left(b)) == b && Par(Right(b)) == b
    ensures Buddy(Left(b)) == Right(b) && Buddy(Right(b)) == Left(b)
  {
    assert Up(2 * b.m, 1) == Up(b.m, 0);
    assert Up(2 * b.m + 1, 1) == Up(b.m, 0);
  }

  lemma ParWithin(b: Block)
    ensures Within(b, Par(b)) && Par(Buddy(b)) == Par(b) && Buddy(Buddy(b)) == b
    ensures {Left(Par(b)), Right(Par(b))} == {b, Buddy(b)}
  {
    assert Up(b.m, 1) == Up(b.m / 2, 0);
  }

  lemma {:induction false} LeftmostWithin(c: Block, j: nat)
    requires j <= c.i
    ensures Within(Leftmost(c, j), c) && First(Leftmost(c, j)) == First(c)
    decreases c.i
  {
    if c.i > j {
      LeftmostWithin(Left(c), j);
      ChildWithin(c);
      WithinTrans(Leftmost(c, j), Left(c), c);
      FirstLeft(c);
    }
  }

  lemma {:induction false} LeftmostStep(c: Block, j: nat)
    requires j < c.i
    ensures Leftmost(c, j) == Left(Leftmost(c, j + 1))
    decreases c.i
  {
    if c.i > j + 1 { LeftmostStep(Left(c), j); }
  }

  // ---- Page arithmetic -----------------------------------------------------

  lemma {:induction false} PowPlus(j: nat, k: nat)
    ensures Pow2(j + k) == Pow2(j) * Pow2(k)
    decreases j
  {
    if j > 0 {
      PowPlus(j - 1, k);
      assert Pow2(j + k) == 2 * Pow2(j - 1 + k);
    }
  }

  lemma {:induction false} PowMono(j: nat, k: nat)
    requires j <= k
    ensures Pow2(j) <= Pow2(k)
    ensures j < k ==> 2 * Pow2(j) <= Pow2(k)
    decreases k
  {
    if j < k { PowMono(j, k - 1); }
  }

  lemma HalfRange(m: nat, lo: nat, hi: nat)
    ensures lo <= m / 2 < hi <==> 2 * lo <= m < 2 * hi
  {
  }

  lemma PowStep(q: nat, k: nat)
    requires k > 0
    ensures q * Pow2(k) == 2 * (q * Pow2(k - 1))
  {
    MulAssoc(q, 2, Pow2(k - 1));
  }

  /** `Up` is division by a power of two. */
  lemma PowZero()
    ensures Pow2(0) == 1
  {
  }

  lemma {:induction false} UpRange(m: nat, k: nat, q: nat)
    ensures Up(m, k) == q <==> q * Pow2(k) <= m < (q + 1) * Pow2(k)
    decreases k
  {
    hide Pow2;
    if k == 0 {
      PowZero();
    } else {
      UpRange(m / 2, k - 1, q);
      PowStep(q, k);
      PowStep(q + 1, k);
      HalfRange(m, q * Pow2(k - 1), (q + 1) * Pow2(k - 1));
    }
  }

  /** A block is exactly the run of `2^i` pages starting at `First(b)`. */
  lemma PagesOfBlock(b: Block, p: nat)
    ensures HasPage(b, p) <==> First(b) <= p < First(b) + Pow2(b.i)
  {
    UpRange(p, b.i, b.m);
    assert (b.m + 1) * Pow2(b.i) == First(b) + Pow2(b.i);
  }

  lemma FirstPage(b: Block)
    ensures HasPage(b, First(b))
  {
    PagesOfBlock(b, First(b));
  }

  lemma FirstLeft(b: Block)
    requires b.i > 0
    ensures First(Left(b)) == First(b)
    ensures First(Right(b)) == First(b) + Pow2(b.i - 1)
    ensures Pow2(b.i) / 2 == Pow2(b.i - 1)
  {
    var h := Pow2(b.i - 1);
    assert First(Left(b)) == 2 * b.m * h;
    assert First(b) == b.m * (2 * h);
    assert First(Right(b)) == (2 * b.m + 1) * h;
  }

  /** Start page and order identify a block. */
  lemma FirstInjective(a: Block, b: Block)
    requires First(a) == First(b) && a.i == b.i
    ensures a == b
  {
    FirstPage(a);
    FirstPage(b);
  }

  lemma MulMono(x: nat, y: nat, z: nat)
    requires x <= y
    ensures x * z <= y * z
  {
  }

  lemma MulAssoc(x: nat, y: nat, z: nat)
    ensures x * y * z == x * (y * z)
  {
  }

  lemma ScaleRange(q: nat, d: nat, m: nat, e: nat)
    requires q * d <= m < (q + 1) * d
    ensures q * (d * e) <= m * e && m * e + e <= q * (d * e) + d * e
  {
    MulMono(q * d, m, e);
    MulMono(m + 1, (q + 1) * d, e);
    MulAssoc(q, d, e);
    MulAssoc(q + 1, d, e);
    assert (q + 1) * (d * e) == q * (d * e) + d * e;
    assert (m + 1) * e == m * e + e;
  }

  lemma WithinPages(a: Block, b: Block)
    requires Within(a, b)
    ensures First(b) <= First(a) && First(a) + Pow2(a.i) <= First(b) + Pow2(b.i)
  {
    UpRange(a.m, b.i - a.i, b.m);
    PowPlus(b.i - a.i, a.i);
    ScaleRange(b.m, Pow2(b.i - a.i), a.m, Pow2(a.i));
  }
}
