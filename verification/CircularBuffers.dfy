/**
  The kernel's circular buffer: a bounded deque in an array, with 32-bit index arithmetic.
  It holds at most one value less than its length.
*/
module CircularBuffers {
  import opened Machine

  lemma ModOnce(i: nat, len: nat)
    requires 0 < len && i < 2 * len
    ensures i % len == if i < len then i else i - len
  {
    if i >= len { assert i == len * 1 + (i - len); }
  }

  /** Stepping an index forward never wraps the word. */
  lemma ForwardIndex(i: nat, len: nat)
    requires i < len < WORD
    ensures Wrap(i + 1) % len == if i + 1 == len then 0 else i + 1
  {
    ModOnce(i + 1, len);
  }

  lemma WordLess(len: nat)
    requires 0 < len < WORD
    ensures (WORD - 1) % len == len - 1 <==> WORD % len == 0
  {
    var q, r := (WORD - 1) / len, (WORD - 1) % len;
    assert WORD == len * q + (r + 1);
    if r + 1 == len {
      assert WORD == len * (q + 1);
      assert WORD % len == 0 by { MultipleMod(q + 1, len, 0); }
    } else {
      assert WORD % len == r + 1 by { MultipleMod(q, len, r + 1); }
    }
  }

  lemma MultipleMod(q: nat, len: nat, r: nat)
    requires r < len
    ensures (len * q + r) % len == r
  {
    var x := len * q + r;
    var d := x / len;
    assert x == len * d + x % len;
    if d < q { MulStep(len, d, q); }
    if q < d { MulStep(len, q, d); }
  }

  lemma MulStep(len: nat, a: nat, b: nat)
    requires a < b
    ensures len * a + len <= len * b
  {
    assert len * b == len * a + len * (b - a);
    assert len * (b - a) == len * (b - a - 1) + len;
  }

  lemma MinusOne()
    ensures Wrap(-1) == WORD - 1
  {
  }

  /** Stepping back through zero lands on the last slot exactly when the length divides 2^32. */
  lemma BackwardIndex(i: nat, len: nat)
    requires i < len < WORD
    ensures Wrap(i - 1) % len == (if i == 0 then len - 1 else i - 1) <==> i != 0 || WORD % len == 0
  {
    hide Wrap;
    if i == 0 {
      MinusOne();
      WordLess(len);
    } else {
      assert Wrap(i - 1) == i - 1;
      ModOnce(i - 1, len);
    }
  }

  /** The slot of the `k`-th value, counted from the read index. */
  function At(iR: nat, k: nat, len: nat): (i: nat)
    requires len > 0
    ensures i < len
  {
    (iR + k) % len
  }

  class CircBuf<T> {
    var iR: nat
    var iW: nat
    var n: nat
    const len: nat
    const buf: array<T>

    /** The write index is `n` slots ahead of the read index, around the ring. */
    ghost predicate Valid()
      reads this
    {
      0 < len < WORD && buf.Length == len && iR < len && n < len && iW == (iR + n) % len
    }

    ghost function Contents(): (s: seq<T>)
      requires Valid()
      reads this, buf
      ensures |s| == n
    {
      seq(n, k requires 0 <= k < n && len > 0 && buf.Length == len reads this, buf => buf[At(iR, k, len)])
    }

    /** Slots in use are different slots. */
    lemma Slots(k: nat)
      requires Valid() && k <= n
      ensures At(iR, k, len) == if iR + k < len then iR + k else iR + k - len
    {
      ModOnce(iR + k, len);
    }

    constructor (len: nat, filler: T)
      requires 0 < len < WORD
      ensures Valid() && Contents() == [] && this.len == len && fresh(buf)
    {
      iR, iW, n, this.len := 0, 0, 0, len;
      buf := new T[len](_ => filler);
      ModOnce(0, len);
    }

    /** Appends a value unless the buffer is full. */
    method Write(v: T) returns (r: int)
      requires Valid()
      modifies this, buf
      ensures Valid() && iR == old(iR)
      ensures if |old(Contents())| + 1 == len then r == -1 && Contents() == old(Contents()) else r == 0 && Contents() == old(Contents()) + [v]
    {
      Slots(n);
      ForwardIndex(iW, len);
      var next := Wrap(iW + 1) % len;
      if n + 1 == len { return -1; }
      ghost var s, m := Contents(), n;
      forall k | 0 <= k < n ensures At(iR, k, len) != iW { Slots(k); }
      ModOnce(iR + n + 1, len);
      hide At;
      buf[iW] := v;
      iW := next;
      n := n + 1;
      assert Contents()[m] == v;
      assert Contents() == s + [v];
      return 0;
    }

    /** Takes the oldest value. */
    method Read() returns (r: int, v: T)
      requires Valid()
      modifies this
      ensures Valid()
      ensures if old(Contents()) == [] then r == -2 && Contents() == [] else r == 0 && [v] + Contents() == old(Contents())
    {
      v := buf[iR];
      if n == 0 { return -2, v; }
      ghost var s := Contents();
      Slots(0);
      Slots(n);
      ForwardIndex(iR, len);
      forall k | 0 <= k < n ensures At(iR, k, len) == if iR + k < len then iR + k else iR + k - len { Slots(k); }
      ghost var i0 := iR;
      iR := Wrap(iR + 1) % len;
      n := n - 1;
      ModOnce(iR + n, len);
      forall k | 0 <= k < n ensures At(iR, k, len) == (i0 + (k + 1)) % len {
        ModOnce(iR + k, len);
        ModOnce(i0 + (k + 1), len);
      }
      assert [v] + Contents() == s;
      return 0, v;
    }

    /**
      Takes back the newest value.  The index arithmetic is right unless the write index is
      zero and the length does not divide 2^32.
    */
    method DeleteFront() returns (r: int)
      requires Valid()
      modifies this
      ensures iR == old(iR) && r == if old(n) == 0 then -2 else 0
      ensures old(n) == 0 ==> n == 0 && iW == old(iW)
      ensures old(n) > 0 ==> n == old(n) - 1 && (Valid() <==> old(iW) != 0 || WORD % len == 0)
      ensures old(n) > 0 && Valid() ==> Contents() == old(Contents())[..n]
    {
      if n == 0 { return -2; }
      BackwardIndex(iW, len);
      Slots(n);
      Slots(n - 1);
      ghost var s := Contents();
      iW := Wrap(iW - 1) % len;
      n := n - 1;
      assert Valid() ==> Contents() == s[..n];
      return 0;
    }

    /** For the lengths in use, taking back a value just written restores the buffer. */
    method WriteThenDelete(v: T) returns (r: int)
      requires Valid() && WORD % len == 0
      modifies this, buf
      ensures Valid() && Contents() == old(Contents()) && iR == old(iR) && iW == old(iW)
      ensures r == 0 <==> |old(Contents())| + 1 < len
    {
      r := Write(v);
      if r == 0 {
        var d := DeleteFront();
      }
    }
  }

  /** The keyboard's buffer and the reaper's buffer have such lengths; three is one that is not. */
  lemma LengthsInUse()
    ensures WORD % 1024 == 0 && WORD % 32 == 0 && WORD % 3 != 0
  {
  }
}
