/** Machine-word operators on unbounded naturals, and the facts about them that
    the block addressing of the buddy allocator, the cache index computation and
    the page translator rest on. */
module Bits {

  /** 1 << n */
  function Pow2(n: nat): (r: nat)
    ensures r > 0
  {
    if n == 0 then 1 else 2 * Pow2(n - 1)
  }

  /** x >> k */
  function Shr(x: nat, k: nat): nat {
    if k == 0 then x else Shr(x, k - 1) / 2
  }

  /** x << k */
  function Shl(x: nat, k: nat): nat {
    if k == 0 then x else 2 * Shl(x, k - 1)
  }

  /** x ^ y, bit by bit */
  function Xor(x: nat, y: nat): nat
    decreases x + y
  {
    if x == 0 && y == 0 then 0
    else (if x % 2 == y % 2 then 0 else 1) + 2 * Xor(x / 2, y / 2)
  }

  /** x & y, bit by bit */
  function And(x: nat, y: nat): nat {
    if x == 0 then 0
    else (if x % 2 == 1 && y % 2 == 1 then 1 else 0) + 2 * And(x / 2, y / 2)
  }

  /** x | y, bit by bit */
  function Or(x: nat, y: nat): nat
    decreases x + y
  {
    if x == 0 && y == 0 then 0
    else (if x % 2 == 1 || y % 2 == 1 then 1 else 0) + 2 * Or(x / 2, y / 2)
  }

  /** The low k bits of x are zero. */
  predicate Aligned(x: nat, k: nat) {
    k == 0 || (x % 2 == 0 && Aligned(x / 2, k - 1))
  }

  /** x with bit k inverted. */
  function Flip(x: nat, k: nat): nat {
    if k == 0 then (if x % 2 == 0 then x + 1 else x - 1)
    else x % 2 + 2 * Flip(x / 2, k - 1)
  }

  // ----------------------------------------------------------- powers of two

  lemma Pow16()
    ensures Pow2(16) == 65536
  {
    assert Pow2(8) == 256;
  }

  lemma PowStep(n: nat)
    requires n > 0
    ensures Pow2(n) == 2 * Pow2(n - 1)
  {
  }

  lemma PowZero()
    ensures Pow2(0) == 1
  {
  }

  lemma {:induction false} PowSum(a: nat, b: nat)
    ensures Pow2(a) * Pow2(b) == Pow2(a + b)
  {
    hide Pow2;
    if a > 0 {
      PowSum(a - 1, b);
      PowStep(a);
      PowStep(a + b);
      assert (2 * Pow2(a - 1)) * Pow2(b) == 2 * (Pow2(a - 1) * Pow2(b));
    } else {
      PowZero();
    }
  }

  // ---------------------------------------------------------------- shifting

  lemma {:induction false} ShrHalf(x: nat, k: nat)
    ensures Shr(x / 2, k) == Shr(x, k + 1)
  {
    if k > 0 {
      ShrHalf(x, k - 1);
    }
  }

  lemma {:induction false} ShrAdd(x: nat, k: nat, m: nat)
    ensures Shr(Shr(x, k), m) == Shr(x, k + m)
  {
    if m > 0 {
      ShrAdd(x, k, m - 1);
    }
  }

  /** Two addresses in one region of order k are in one region of every larger order. */
  lemma {:induction false} ShrMono(x: nat, y: nat, k: nat, m: nat)
    requires k <= m
    requires Shr(x, k) == Shr(y, k)
    ensures Shr(x, m) == Shr(y, m)
    decreases m
  {
    if k < m {
      ShrMono(x, y, k, m - 1);
    }
  }

  lemma {:induction false} ShrZero(x: nat, k: nat)
    ensures Shr(x, k) == 0 <==> x < Pow2(k)
    decreases k
  {
    if k > 0 {
      ShrZero(x / 2, k - 1);
      ShrHalf(x, k - 1);
    }
  }

  /** The region of order k that holds an aligned address p is [p, p + 2^k). */
  lemma {:induction false} RegionIsRange(p: nat, k: nat, x: nat)
    requires Aligned(p, k)
    ensures Shr(x, k) == Shr(p, k) <==> p <= x < p + Pow2(k)
    decreases k
  {
    if k > 0 {
      RegionIsRange(p / 2, k - 1, x / 2);
      ShrHalf(x, k - 1);
      ShrHalf(p, k - 1);
    }
  }

  lemma {:induction false} ShlIsMul(x: nat, k: nat)
    ensures Shl(x, k) == x * Pow2(k)
  {
    if k > 0 {
      ShlIsMul(x, k - 1);
      assert 2 * (x * Pow2(k - 1)) == x * (2 * Pow2(k - 1));
    }
  }

  lemma {:induction false} ShrShl(x: nat, k: nat)
    ensures Shr(Shl(x, k), k) == x
    ensures Aligned(Shl(x, k), k)
    decreases k
  {
    if k > 0 {
      ShrShl(x, k - 1);
      ShrHalf(Shl(x, k), k - 1);
      assert Shl(x, k) / 2 == Shl(x, k - 1);
    }
  }

  lemma {:induction false} MulGap(a: nat, b: nat, d: nat)
    requires a < b
    ensures a * d + d <= b * d
    decreases b
  {
    if a + 1 < b {
      MulGap(a, b - 1, d);
    }
  }

  lemma DivUnique(x: nat, d: nat, q: nat)
    requires d > 0 && q * d <= x < q * d + d
    ensures x / d == q && x % d == x - q * d
  {
    var e, r := x / d, x % d;
    assert x == e * d + r && 0 <= r < d;
    if e < q {
      MulGap(e, q, d);
      assert false;
    }
    if q < e {
      MulGap(q, e, d);
      assert false;
    }
  }

  lemma {:induction false} ShrIsDiv(x: nat, k: nat)
    ensures Shr(x, k) == x / Pow2(k)
    ensures Shr(x, k) * Pow2(k) + x % Pow2(k) == x
  {
    var q := Shr(x, k);
    ShrShl(q, k);
    RegionIsRange(Shl(q, k), k, x);
    ShlIsMul(q, k);
    var d := Pow2(k);
    assert q * d <= x < q * d + d;
    DivUnique(x, d, q);
  }

  // --------------------------------------------------------------- alignment

  lemma {:induction false} AlignedUnique(p: nat, q: nat, k: nat)
    requires Aligned(p, k) && Aligned(q, k) && Shr(p, k) == Shr(q, k)
    ensures p == q
  {
    if k > 0 {
      ShrHalf(p, k - 1);
      ShrHalf(q, k - 1);
      AlignedUnique(p / 2, q / 2, k - 1);
    }
  }

  /** Alignment at k+1 is alignment at k with bit k clear. */
  lemma {:induction false} AlignedStep(p: nat, k: nat)
    ensures Aligned(p, k + 1) <==> Aligned(p, k) && Shr(p, k) % 2 == 0
  {
    if k > 0 {
      AlignedStep(p / 2, k - 1);
      ShrHalf(p, k - 1);
    }
  }

  lemma {:induction false} AlignedMono(p: nat, k: nat, m: nat)
    requires k <= m && Aligned(p, m)
    ensures Aligned(p, k)
    decreases m
  {
    if k < m {
      AlignedStep(p, m - 1);
      AlignedMono(p, k, m - 1);
    }
  }

  // ----------------------------------------------------------- flipping a bit

  /** What inverting bit k does: it swaps the two halves of the region of order k+1. */
  lemma {:induction false} FlipFacts(p: nat, k: nat)
    ensures Flip(Flip(p, k), k) == p
    ensures Shr(Flip(p, k), k) == if Shr(p, k) % 2 == 0 then Shr(p, k) + 1 else Shr(p, k) - 1
    ensures Shr(p, k) % 2 == 0 <==> p < Flip(p, k)
    ensures Shr(p, k) % 2 == 1 <==> Flip(p, k) < p
    ensures Aligned(p, k) ==> Aligned(Flip(p, k), k)
  {
    if k > 0 {
      FlipFacts(p / 2, k - 1);
      ShrHalf(p, k - 1);
      var f := Flip(p, k);
      assert f / 2 == Flip(p / 2, k - 1) && f % 2 == p % 2;
      ShrHalf(f, k - 1);
    }
  }

  lemma FlipAbove(p: nat, k: nat, m: nat)
    requires k < m
    ensures Shr(Flip(p, k), m) == Shr(p, m)
  {
    FlipFacts(p, k);
    assert Shr(Flip(p, k), k + 1) == Shr(p, k + 1);
    ShrMono(Flip(p, k), p, k + 1, m);
  }

  lemma FlipBound(p: nat, k: nat, n: nat)
    requires k < n && p < Pow2(n)
    ensures Flip(p, k) < Pow2(n)
  {
    FlipAbove(p, k, n);
    ShrZero(p, n);
    ShrZero(Flip(p, k), n);
  }

  lemma {:induction false} XorZero(x: nat)
    ensures Xor(x, 0) == x
  {
    if x > 0 {
      XorZero(x / 2);
    }
  }

  /** Exclusive-or with 1 << k inverts bit k. */
  lemma {:induction false} XorIsFlip(x: nat, k: nat)
    ensures Xor(x, Pow2(k)) == Flip(x, k)
  {
    if k == 0 {
      XorZero(x / 2);
    } else {
      assert Pow2(k) % 2 == 0 && Pow2(k) / 2 == Pow2(k - 1);
      XorIsFlip(x / 2, k - 1);
    }
  }

  lemma {:induction false} FlipShl(p: nat, k: nat, m: nat)
    ensures Flip(Shl(p, m), k + m) == Shl(Flip(p, k), m)
  {
    if m > 0 {
      FlipShl(p, k, m - 1);
      assert Shl(p, m) / 2 == Shl(p, m - 1);
    }
  }

  // ------------------------------------------------------------ masks and or

  /** The low k bits of x. */
  function Low(x: nat, k: nat): nat {
    if k == 0 then 0 else x % 2 + 2 * Low(x / 2, k - 1)
  }

  lemma {:induction false} LowZero(k: nat)
    ensures Low(0, k) == 0
  {
    if k > 0 {
      LowZero(k - 1);
    }
  }

  lemma {:induction false} AndZero(x: nat)
    ensures And(x, 0) == 0
  {
    if x > 0 {
      AndZero(x / 2);
    }
  }

  lemma {:induction false} AndIsLow(x: nat, k: nat)
    ensures And(x, Pow2(k) - 1) == Low(x, k)
    decreases k
  {
    if k == 0 {
      AndZero(x);
    } else {
      var d := Pow2(k - 1);
      assert Pow2(k) - 1 == 2 * (d - 1) + 1;
      assert (Pow2(k) - 1) / 2 == d - 1 && (Pow2(k) - 1) % 2 == 1;
      AndIsLow(x / 2, k - 1);
      if x == 0 {
        LowZero(k);
      }
    }
  }

  lemma {:induction false} HighLow(x: nat, k: nat)
    ensures Shl(Shr(x, k), k) + Low(x, k) == x && Low(x, k) < Pow2(k)
    decreases k
  {
    if k > 0 {
      HighLow(x / 2, k - 1);
      ShrHalf(x, k - 1);
    }
  }

  /** Masking with 2^k - 1 keeps the remainder modulo 2^k. */
  lemma AndMask(x: nat, k: nat)
    ensures And(x, Pow2(k) - 1) == x % Pow2(k) && x % Pow2(k) < Pow2(k)
  {
    AndIsLow(x, k);
    HighLow(x, k);
    ShlIsMul(Shr(x, k), k);
    DivUnique(x, Pow2(k), Shr(x, k));
  }

  lemma {:induction false} OrZero(y: nat)
    ensures Or(0, y) == y
  {
    if y > 0 {
      OrZero(y / 2);
    }
  }

  lemma {:induction false} OrComm(x: nat, y: nat)
    ensures Or(x, y) == Or(y, x)
    decreases x + y
  {
    if x != 0 || y != 0 {
      OrComm(x / 2, y / 2);
    }
  }

  /** Or-ing a value below 2^k into a value shifted left by k adds the two. */
  lemma {:induction false} OrShl(h: nat, l: nat, k: nat)
    requires l < Pow2(k)
    ensures Or(Shl(h, k), l) == Shl(h, k) + l
    ensures Or(l, Shl(h, k)) == Shl(h, k) + l
    decreases k
  {
    if k == 0 {
      OrZero(h);
      OrComm(0, h);
    } else if Shl(h, k) != 0 || l != 0 {
      OrShl(h, l / 2, k - 1);
      assert Shl(h, k) / 2 == Shl(h, k - 1);
    }
  }
}
