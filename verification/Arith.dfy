/** Powers of two and alignment: the arithmetic behind the `order_size`,
    `order_mask` and `is_aligned` macros. */
module Arith {

  function Pow2(k: nat): (r: nat)
    ensures r >= 1
  {
    if k == 0 then 1 else 2 * Pow2(k - 1)
  }

  /** The low `k` bits of `n` are clear, that is, 2^k divides `n`. */
  predicate Aligned(n: nat, k: nat) {
    k == 0 || (n % 2 == 0 && Aligned(n / 2, k - 1))
  }

  lemma {:induction false} Pow2Increasing(a: nat, b: nat)
    requires a < b
    ensures Pow2(a) < Pow2(b)
    decreases b
  {
    if a < b - 1 { Pow2Increasing(a, b - 1); }
  }

  lemma Pow2Monotone(a: nat, b: nat)
    requires a <= b
    ensures Pow2(a) <= Pow2(b)
  {
    if a < b { Pow2Increasing(a, b); }
  }

  lemma {:induction false} Pow2Add(a: nat, b: nat)
    ensures Pow2(a + b) == Pow2(a) * Pow2(b)
  {
    if a != 0 {
      Pow2Add(a - 1, b);
      assert 2 * (Pow2(a - 1) * Pow2(b)) == (2 * Pow2(a - 1)) * Pow2(b);
    }
  }

  lemma {:induction false} AlignedZero(k: nat)
    ensures Aligned(0, k)
  {
    if k > 0 { AlignedZero(k - 1); }
  }

  lemma {:induction false} AlignedAdd(a: nat, b: nat, k: nat)
    requires Aligned(a, k)
    ensures Aligned(a + b, k) <==> Aligned(b, k)
    decreases k
  {
    if k > 0 {
      assert a % 2 == 0;
      if b % 2 == 0 {
        assert (a + b) / 2 == a / 2 + b / 2;
        AlignedAdd(a / 2, b / 2, k - 1);
      }
    }
  }

  lemma AlignedSub(a: nat, b: nat, k: nat)
    requires Aligned(a, k) && Aligned(b, k) && b <= a
    ensures Aligned(a - b, k)
  {
    AlignedAdd(b, a - b, k);
  }

  lemma {:induction false} AlignedToSmaller(n: nat, j: nat, k: nat)
    requires j <= k && Aligned(n, k)
    ensures Aligned(n, j)
    decreases j
  {
    if j > 0 { AlignedToSmaller(n / 2, j - 1, k - 1); }
  }

  lemma AlignedTwice(m: nat, k: nat)
    requires k > 0 && Aligned(m, k - 1)
    ensures Aligned(2 * m, k)
  {
  }

  lemma {:induction false} AlignedPow2(j: nat, k: nat)
    requires j <= k
    ensures Aligned(Pow2(k), j)
    decreases j
  {
    if j > 0 {
      AlignedPow2(j - 1, k - 1);
      AlignedTwice(Pow2(k - 1), j);
    }
  }

  /** Two multiples of 2^k that differ are at least 2^k apart. */
  lemma {:induction false} AlignedApart(x: nat, y: nat, k: nat)
    requires Aligned(x, k) && Aligned(y, k) && x < y
    ensures x + Pow2(k) <= y
    decreases k
  {
    if k > 0 { AlignedApart(x / 2, y / 2, k - 1); }
  }

  /** `n & order_mask(k)`: the low `k` bits of `n`. */
  function LowBits(n: nat, k: nat): (r: nat)
    ensures r <= n && r < Pow2(k)
  {
    if k == 0 then 0 else n % 2 + 2 * LowBits(n / 2, k - 1)
  }

  lemma {:induction false} LowBitsSplit(n: nat, k: nat)
    ensures Aligned(n - LowBits(n, k), k)
    ensures LowBits(n, k) == 0 <==> Aligned(n, k)
    decreases k
  {
    if k > 0 {
      LowBitsSplit(n / 2, k - 1);
      assert (n - LowBits(n, k)) / 2 == n / 2 - LowBits(n / 2, k - 1);
    }
  }

  lemma {:induction false} AlignedLowBits(n: nat, j: nat, k: nat)
    requires j <= k && Aligned(n, j)
    ensures Aligned(LowBits(n, k), j)
    decreases k
  {
    LowBitsSplit(n, k);
    AlignedToSmaller(n - LowBits(n, k), j, k);
    AlignedAdd(n - LowBits(n, k), LowBits(n, k), j);
  }

  /** `n >> k`. */
  function Shr(n: nat, k: nat): nat {
    if k == 0 then n else Shr(n / 2, k - 1)
  }

  /** A shift and a mask split a number. */
  lemma {:induction false} ShrSplit(n: nat, k: nat)
    ensures n == Shr(n, k) * Pow2(k) + LowBits(n, k)
    decreases k
  {
    if k > 0 {
      ShrSplit(n / 2, k - 1);
      DoubledFactor(Shr(n, k), Pow2(k - 1));
    }
  }

  lemma LargerQuotient(a: nat, b: nat, p: nat)
    requires a < b
    ensures a * p + p <= b * p
  {
    assert (a + 1) * p <= b * p;
  }

  lemma UniqueSplit(a: nat, r: nat, b: nat, s: nat, p: nat)
    requires a * p + r == b * p + s && r < p && s < p
    ensures a == b && r == s
  {
    if a < b { LargerQuotient(a, b, p); } else if b < a { LargerQuotient(b, a, p); }
  }

  /** Within a block of 2^k the shift stays and the mask counts. */
  lemma ShrStep(n: nat, k: nat, j: nat)
    requires LowBits(n, k) + j < Pow2(k)
    ensures Shr(n + j, k) == Shr(n, k) && LowBits(n + j, k) == LowBits(n, k) + j
  {
    ShrSplit(n, k);
    ShrSplit(n + j, k);
    UniqueSplit(Shr(n, k), LowBits(n, k) + j, Shr(n + j, k), LowBits(n + j, k), Pow2(k));
  }

  /** `roundup2_order_size(x, order)`. */
  function RoundUp(x: nat, order: nat): (r: nat)
    ensures Aligned(r, order) && x <= r < x + Pow2(order)
    ensures Aligned(x, order) ==> r == x
  {
    LowBitsSplit(x, order);
    AlignedPow2(order, order);
    AlignedAdd(x - LowBits(x, order), Pow2(order), order);
    if LowBits(x, order) != 0 then (x - LowBits(x, order)) + Pow2(order) else x
  }

  // ----- pages -----

  const PAGE_SHIFT: nat := 12
  const PAGE: nat := 4096

  lemma DoubledFactor(q: nat, p: nat)
    ensures q * (2 * p) == 2 * (q * p)
  {
  }

  lemma {:induction false} AlignedQuotient(n: nat, k: nat) returns (q: nat)
    requires Aligned(n, k)
    ensures n == q * Pow2(k)
    decreases k
  {
    if k == 0 {
      q := n;
    } else {
      q := AlignedQuotient(n / 2, k - 1);
      DoubledFactor(q, Pow2(k - 1));
    }
  }

  lemma {:induction false} AlignedProduct(q: nat, k: nat)
    ensures Aligned(q * Pow2(k), k)
    decreases k
  {
    if k > 0 {
      AlignedProduct(q, k - 1);
      DoubledFactor(q, Pow2(k - 1));
      AlignedTwice(q * Pow2(k - 1), k);
    }
  }

  lemma PageSize()
    ensures Pow2(PAGE_SHIFT) == PAGE
  {
    assert Pow2(4) == 16 && Pow2(8) == 256;
    Pow2Add(4, 8);
  }

  lemma PageAligned(n: nat)
    ensures Aligned(n, PAGE_SHIFT) <==> n % PAGE == 0
  {
    PageSize();
    if Aligned(n, PAGE_SHIFT) {
      var q := AlignedQuotient(n, PAGE_SHIFT);
    }
    if n % PAGE == 0 {
      AlignedProduct(n / PAGE, PAGE_SHIFT);
    }
  }

  /** `VMM_SIZE_TO_PAGE`. */
  function SizeToPage(x: nat): (r: nat)
    ensures x <= r * PAGE < x + PAGE
    ensures x % PAGE == 0 ==> r * PAGE == x
  {
    x / PAGE + (if x % PAGE != 0 then 1 else 0)
  }
}
