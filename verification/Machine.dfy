/** Machine constants and the 32-bit arithmetic the kernel relies on. */
module Machine {
  const PAGE_SIZE: nat := 4096
  const USER_MEM_START: nat := 0x100_0000
  const WORD: nat := 0x1_0000_0000

  /** The value of an unsigned 32-bit computation. */
  function Wrap(x: int): (r: nat)
    ensures r < WORD
    ensures 0 <= x < WORD ==> r == x
  {
    x % WORD
  }

  function Pow2(k: nat): (r: nat)
    ensures r >= 1
  {
    if k == 0 then 1 else 2 * Pow2(k - 1)
  }

  /** Bitwise or, digit by digit. */
  function BitOr(a: nat, b: nat): nat
    decreases a + b
  {
    if a == 0 && b == 0 then 0
    else 2 * BitOr(a / 2, b / 2) + (if a % 2 == 1 || b % 2 == 1 then 1 else 0)
  }

  lemma {:induction false} BitOrZero(a: nat)
    ensures BitOr(a, 0) == a
  {
    if a > 0 { BitOrZero(a / 2); }
  }

  /** Or-ing a small number into the zero low bits of an aligned one adds it. */
  lemma {:induction false} BitOrAligned(x: nat, size: nat, k: nat, low: nat)
    requires size == Pow2(k) && low < size
    ensures BitOr(x * size, low) == x * size + low
    decreases k
  {
    if k == 0 {
      BitOrZero(x);
      assert x * size == x && low == 0;
    } else {
      var half := Pow2(k - 1);
      assert x * size == 2 * (x * half);
      assert (x * size) / 2 == x * half && (x * size) % 2 == 0;
      BitOrAligned(x, half, k - 1, low / 2);
    }
  }

  /** Flags live in the twelve zero bits of a page-aligned address. */
  lemma BitOrFlags(a: nat, low: nat)
    requires a % PAGE_SIZE == 0 && low < PAGE_SIZE
    ensures BitOr(a, low) == a + low
  {
    assert Pow2(12) == 4096 by {
      assert Pow2(4) == 16;
      assert Pow2(8) == 256;
    }
    BitOrAligned(a / PAGE_SIZE, PAGE_SIZE, 12, low);
  }
}
