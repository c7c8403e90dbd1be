/** Bit operations on unbounded naturals: `__ffs`, `__fls`, `|` and `&`. */
module Bits {
  import opened Arith

  predicate Bit(n: nat, k: nat) {
    if k == 0 then n % 2 == 1 else Bit(n / 2, k - 1)
  }

  /** `__fls`: index of the most significant set bit. */
  function Fls(n: nat): (k: nat)
    requires n > 0
  {
    if n == 1 then 0 else 1 + Fls(n / 2)
  }

  /** `__ffs`: index of the least significant set bit. */
  function Ffs(n: nat): (k: nat)
    requires n > 0
  {
    if n % 2 == 1 then 0 else 1 + Ffs(n / 2)
  }

  function Or(a: nat, b: nat): (r: nat)
  {
    if a == 0 && b == 0 then 0
    else 2 * Or(a / 2, b / 2) + (if a % 2 == 1 || b % 2 == 1 then 1 else 0)
  }

  function And(a: nat, b: nat): (r: nat)
  {
    if a == 0 || b == 0 then 0
    else 2 * And(a / 2, b / 2) + (if a % 2 == 1 && b % 2 == 1 then 1 else 0)
  }

  lemma {:induction false} BitOfZero(k: nat)
    ensures !Bit(0, k)
  {
    if k > 0 { BitOfZero(k - 1); }
  }

  lemma {:induction false} AndBit(a: nat, b: nat, k: nat)
    ensures Bit(And(a, b), k) == (Bit(a, k) && Bit(b, k))
    decreases k
  {
    if a == 0 || b == 0 {
      BitOfZero(k);
    } else if k > 0 {
      AndBit(a / 2, b / 2, k - 1);
    }
  }

  /** `(1UL << m) - 1` has exactly the bits below `m`. */
  lemma {:induction false} MaskBit(m: nat, k: nat)
    ensures Bit(Pow2(m) - 1, k) == (k < m)
    decreases m
  {
    if m == 0 {
      BitOfZero(k);
    } else if k > 0 {
      MaskBit(m - 1, k - 1);
    }
  }

  lemma {:induction false} TopBit(n: nat, k: nat)
    requires n > 0
    ensures Bit(n, Fls(n))
    ensures Bit(n, k) ==> k <= Fls(n)
    decreases n
  {
    if n == 1 {
      if k > 0 { BitOfZero(k - 1); }
    } else {
      TopBit(n / 2, if k > 0 then k - 1 else 0);
    }
  }

  lemma {:induction false} FlsFits(n: nat, k: nat)
    requires n > 0
    ensures k <= Fls(n) <==> Pow2(k) <= n
    decreases n
  {
    if n > 1 && k > 0 { FlsFits(n / 2, k - 1); }
  }

  lemma {:induction false} FfsAligns(n: nat, k: nat)
    requires n > 0
    ensures k <= Ffs(n) <==> Aligned(n, k)
    decreases n
  {
    if k > 0 && n % 2 == 0 { FfsAligns(n / 2, k - 1); }
  }

  lemma OrStep(a: nat, b: nat)
    ensures Or(a, b) / 2 == Or(a / 2, b / 2)
    ensures Or(a, b) % 2 == 0 <==> a % 2 == 0 && b % 2 == 0
  {
  }

  /** A merged address is aligned exactly when both addresses are. */
  lemma {:induction false} OrAligned(a: nat, b: nat, k: nat)
    ensures Aligned(Or(a, b), k) <==> Aligned(a, k) && Aligned(b, k)
    decreases k
  {
    hide Or;
    if k > 0 {
      OrStep(a, b);
      OrAligned(a / 2, b / 2, k - 1);
    }
  }

  /** `is_aligned(n, 1 << k)`: masking with 2^k - 1 leaves nothing. */
  lemma {:induction false} MaskAligned(n: nat, k: nat)
    ensures And(n, Pow2(k) - 1) == 0 <==> Aligned(n, k)
    decreases k
  {
    if k > 0 { MaskAligned(n / 2, k - 1); }
    if n == 0 { AlignedZero(k); }
  }
}
