/** The IOMMU mapping core: the choice of hardware page sizes
    (`iommu_pgsize`), the mapping loop with its unroll (`vmm_iommu_map`) and
    the unmapping loop (`vmm_iommu_unmap`). */
module Iommu {
  import opened Arith
  import opened Bits
  import opened Common

  /** `iommu_pgsize`; `None` stands for the `BUG_ON` that does not return. */
  function Pgsize(bitmap: nat, merge: nat, size: nat): (r: Option<nat>)
    requires size > 0
  {
    var fit := Fls(size);
    var idx := if merge != 0 && Ffs(merge) < fit then Ffs(merge) else fit;
    var mask := And(Pow2(idx + 1) - 1, bitmap);
    if mask == 0 then None else Some(Pow2(Fls(mask)))
  }

  /** A page of size 2^k may be mapped at both addresses within `size` bytes. */
  ghost predicate Usable(bitmap: nat, iova: nat, paddr: nat, size: nat, k: nat) {
    Bit(bitmap, k) && Aligned(iova, k) && Aligned(paddr, k) && Pow2(k) <= size
  }

  lemma UsableIsMaskBit(bitmap: nat, iova: nat, paddr: nat, size: nat, k: nat)
    requires size > 0
    ensures var merge := Or(iova, paddr);
            var fit := Fls(size);
            var idx := if merge != 0 && Ffs(merge) < fit then Ffs(merge) else fit;
            Usable(bitmap, iova, paddr, size, k) <==> Bit(And(Pow2(idx + 1) - 1, bitmap), k)
  {
    var merge := Or(iova, paddr);
    var fit := Fls(size);
    var idx := if merge != 0 && Ffs(merge) < fit then Ffs(merge) else fit;
    AndBit(Pow2(idx + 1) - 1, bitmap, k);
    MaskBit(idx + 1, k);
    FlsFits(size, k);
    OrAligned(iova, paddr, k);
    if merge != 0 { FfsAligns(merge, k); } else { AlignedZero(k); }
  }

  /** The page picked is the largest usable one, and `BUG_ON` fires exactly
      when there is none. */
  lemma PgsizeIsLargestUsable(bitmap: nat, iova: nat, paddr: nat, size: nat)
    requires size > 0
    ensures var r := Pgsize(bitmap, Or(iova, paddr), size);
            && (r.None? <==> forall k :: !Usable(bitmap, iova, paddr, size, k))
            && (r.Some? ==>
                  exists k :: Usable(bitmap, iova, paddr, size, k) && r.value == Pow2(k)
                              && forall j: nat :: Usable(bitmap, iova, paddr, size, j) ==> j <= k)
  {
    var merge := Or(iova, paddr);
    var fit := Fls(size);
    var idx := if merge != 0 && Ffs(merge) < fit then Ffs(merge) else fit;
    var mask := And(Pow2(idx + 1) - 1, bitmap);
    forall k
      ensures Usable(bitmap, iova, paddr, size, k) <==> Bit(mask, k)
    {
      UsableIsMaskBit(bitmap, iova, paddr, size, k);
    }
    if mask == 0 {
      forall k ensures !Bit(mask, k) { BitOfZero(k); }
    } else {
      var top := Fls(mask);
      TopBit(mask, top);
      assert Usable(bitmap, iova, paddr, size, top);
      forall j: nat | Usable(bitmap, iova, paddr, size, j) ensures j <= top { TopBit(mask, j); }
    }
  }

  /** The exponent of the page picked, when there is one. */
  ghost function Pick(bitmap: nat, iova: nat, paddr: nat, size: nat): (k: nat)
    requires size > 0 && Pgsize(bitmap, Or(iova, paddr), size).Some?
    ensures Usable(bitmap, iova, paddr, size, k)
    ensures Pgsize(bitmap, Or(iova, paddr), size) == Some(Pow2(k))
    ensures forall j: nat :: Usable(bitmap, iova, paddr, size, j) ==> j <= k
  {
    PgsizeIsLargestUsable(bitmap, iova, paddr, size);
    var k :| Usable(bitmap, iova, paddr, size, k)
             && Pgsize(bitmap, Or(iova, paddr), size).value == Pow2(k)
             && forall j: nat :: Usable(bitmap, iova, paddr, size, j) ==> j <= k;
    k
  }

  /** The request passes the alignment test against the smallest page. */
  ghost predicate Mappable(bitmap: nat, iova: nat, paddr: nat, size: nat)
  {
    && bitmap > 0
    && Aligned(iova, Ffs(bitmap)) && Aligned(paddr, Ffs(bitmap)) && Aligned(size, Ffs(bitmap))
  }

  lemma {:induction false} LowestBit(n: nat, k: nat)
    requires n > 0
    ensures Bit(n, Ffs(n))
    ensures Bit(n, k) ==> Ffs(n) <= k
    decreases n
  {
    if n % 2 == 0 { LowestBit(n / 2, if k > 0 then k - 1 else 0); }
  }

  lemma {:induction false} OrSizeAligned(a: nat, b: nat, c: nat, k: nat)
    ensures Aligned(Or(Or(a, b), c), k) <==> Aligned(a, k) && Aligned(b, k) && Aligned(c, k)
  {
    OrAligned(a, b, k);
    OrAligned(Or(a, b), c, k);
  }

  /** A request aligned to the smallest page never reaches the `BUG_ON`, and
      what is left after the page picked is aligned to the smallest page again. */
  lemma PickAdvances(bitmap: nat, iova: nat, paddr: nat, size: nat)
    requires Mappable(bitmap, iova, paddr, size) && size > 0
    ensures Pgsize(bitmap, Or(iova, paddr), size).Some?
    ensures var p := Pow2(Pick(bitmap, iova, paddr, size));
            p <= size && Mappable(bitmap, iova + p, paddr + p, size - p)
  {
    var m := Ffs(bitmap);
    LowestBit(bitmap, 0);
    AlignedZero(m);
    AlignedApart(0, size, m);
    assert Usable(bitmap, iova, paddr, size, m);
    PgsizeIsLargestUsable(bitmap, iova, paddr, size);
    var k := Pick(bitmap, iova, paddr, size);
    LowestBit(bitmap, k);
    AlignedPow2(m, k);
    AlignedAdd(iova, Pow2(k), m);
    AlignedAdd(paddr, Pow2(k), m);
    AlignedSub(size, Pow2(k), m);
  }

  // ----- tilings -----

  /** `pages` (as exponents) cut the range into supported pages that are
      naturally aligned in both address spaces. */
  ghost predicate IsTiling(bitmap: nat, iova: nat, paddr: nat, size: nat, pages: seq<nat>)
    decreases |pages|
  {
    if pages == [] then size == 0
    else
      var p := Pow2(pages[0]);
      && Usable(bitmap, iova, paddr, size, pages[0])
      && IsTiling(bitmap, iova + p, paddr + p, size - p, pages[1..])
  }

  /** The pages `vmm_iommu_map` asks the driver for. */
  ghost function Greedy(bitmap: nat, iova: nat, paddr: nat, size: nat): (pages: seq<nat>)
    requires Mappable(bitmap, iova, paddr, size)
    ensures size == 0 ==> pages == []
    decreases size
  {
    if size == 0 then []
    else
      PickAdvances(bitmap, iova, paddr, size);
      var k := Pick(bitmap, iova, paddr, size);
      [k] + Greedy(bitmap, iova + Pow2(k), paddr + Pow2(k), size - Pow2(k))
  }

  lemma GreedyHead(bitmap: nat, iova: nat, paddr: nat, size: nat)
    requires Mappable(bitmap, iova, paddr, size) && size > 0
    ensures Pgsize(bitmap, Or(iova, paddr), size).Some?
    ensures var pages := Greedy(bitmap, iova, paddr, size);
            var p := Pgsize(bitmap, Or(iova, paddr), size).value;
            && 0 < p <= size && Mappable(bitmap, iova + p, paddr + p, size - p)
            && pages != [] && Pow2(pages[0]) == p && Usable(bitmap, iova, paddr, size, pages[0])
            && pages[1..] == Greedy(bitmap, iova + p, paddr + p, size - p)
            && forall j: nat :: Usable(bitmap, iova, paddr, size, j) ==> j <= pages[0]
  {
    PickAdvances(bitmap, iova, paddr, size);
  }

  /** Every request aligned to the smallest page is tiled exactly. */
  lemma {:induction false} GreedyTiles(bitmap: nat, iova: nat, paddr: nat, size: nat)
    requires Mappable(bitmap, iova, paddr, size)
    ensures IsTiling(bitmap, iova, paddr, size, Greedy(bitmap, iova, paddr, size))
    decreases size
  {
    if size > 0 {
      GreedyHead(bitmap, iova, paddr, size);
      var p := Pow2(Greedy(bitmap, iova, paddr, size)[0]);
      GreedyTiles(bitmap, iova + p, paddr + p, size - p);
    }
  }

  /** A page that starts strictly inside an aligned block of size 2^g ends
      inside it as well. */
  lemma PageStaysInBlock(base: nat, off: nat, g: nat, k: nat)
    requires Aligned(base, g) && Aligned(base + off, k) && 0 < off < Pow2(g)
    ensures k < g && off + Pow2(k) <= Pow2(g)
  {
    if g <= k {
      AlignedToSmaller(base + off, g, k);
      AlignedAdd(base, off, g);
      AlignedZero(g);
      AlignedApart(0, off, g);
    } else {
      AlignedToSmaller(base, k, g);
      AlignedAdd(base, off, k);
      AlignedPow2(k, g);
      AlignedApart(off, Pow2(g), k);
    }
  }

  /** Cut: a tiling that starts at offset `off` of a block of size 2^g aligned
      in both spaces fills the block with whole pages; `n` pages are used. */
  lemma {:induction false} CutAtBlock(bitmap: nat, iova: nat, paddr: nat, size: nat,
                                      g: nat, off: nat, pages: seq<nat>) returns (n: nat)
    requires Aligned(iova, g) && Aligned(paddr, g) && off <= Pow2(g) <= size
    requires IsTiling(bitmap, iova + off, paddr + off, size - off, pages)
    requires off == 0 && pages != [] ==> pages[0] <= g
    ensures n <= |pages| && (n == 0 <==> off == Pow2(g))
    ensures off == 0 && n == 1 ==> pages[0] == g
    ensures IsTiling(bitmap, iova + Pow2(g), paddr + Pow2(g), size - Pow2(g), pages[n..])
    decreases |pages|
  {
    if off == Pow2(g) {
      n := 0;
      assert pages[0..] == pages;
    } else {
      var k := pages[0];
      if off == 0 { Pow2Monotone(k, g); } else { PageStaysInBlock(iova, off, g, k); }
      var rest := CutAtBlock(bitmap, iova, paddr, size, g, off + Pow2(k), pages[1..]);
      n := rest + 1;
      assert pages[1..][rest..] == pages[n..];
      if off == 0 && n == 1 && k < g { Pow2Increasing(k, g); }
    }
  }

  /** The greedy choice is optimal, and it is the only tiling with that few
      pages: no tiling by supported, naturally aligned pages uses fewer. */
  lemma {:induction false} GreedyIsOptimal(bitmap: nat, iova: nat, paddr: nat, size: nat, other: seq<nat>)
    requires Mappable(bitmap, iova, paddr, size)
    requires IsTiling(bitmap, iova, paddr, size, other)
    ensures |Greedy(bitmap, iova, paddr, size)| <= |other|
    ensures |Greedy(bitmap, iova, paddr, size)| == |other| ==> other == Greedy(bitmap, iova, paddr, size)
    decreases size
  {
    hide Pgsize, Usable, Aligned;
    if size > 0 {
      GreedyHead(bitmap, iova, paddr, size);
      var best := Greedy(bitmap, iova, paddr, size);
      var p := Pow2(best[0]);
      var n := CutAtBlock(bitmap, iova, paddr, size, best[0], 0, other);
      GreedyIsOptimal(bitmap, iova + p, paddr + p, size - p, other[n..]);
      assert n == 1 ==> other == [other[0]] + other[1..];
      assert best == [best[0]] + best[1..];
    }
  }

  // ----- the domain and its driver -----

  ghost function Total(pages: seq<nat>): (n: nat) {
    if pages == [] then 0 else Pow2(pages[0]) + Total(pages[1..])
  }

  /** Return code and unmapped remainder of the mapping loop when its driver
      call number `failAt` is the first to fail, with code `failRc`. */
  ghost function Outcome(bitmap: nat, iova: nat, paddr: nat, size: nat,
                         failAt: nat, failRc: int): (r: (int, nat))
    requires Mappable(bitmap, iova, paddr, size)
    ensures size == 0 ==> r == (VMM_OK, 0)
    decreases size
  {
    if size == 0 then (VMM_OK, 0)
    else if failAt == 0 then (failRc, size)
    else
      GreedyHead(bitmap, iova, paddr, size);
      var p := Pow2(Greedy(bitmap, iova, paddr, size)[0]);
      Outcome(bitmap, iova + p, paddr + p, size - p, failAt - 1, failRc)
  }

  lemma OutcomeStep(bitmap: nat, iova: nat, paddr: nat, size: nat, failAt: nat, failRc: int)
    requires Mappable(bitmap, iova, paddr, size) && size > 0
    ensures Pgsize(bitmap, Or(iova, paddr), size).Some?
    ensures var p := Pgsize(bitmap, Or(iova, paddr), size).value;
            && 0 < p <= size && Mappable(bitmap, iova + p, paddr + p, size - p)
            && Outcome(bitmap, iova, paddr, size, failAt, failRc)
               == if failAt == 0 then (failRc, size)
                  else Outcome(bitmap, iova + p, paddr + p, size - p, failAt - 1, failRc)
  {
    hide Pgsize, Usable, Aligned, Greedy;
    GreedyHead(bitmap, iova, paddr, size);
  }

  /** The loop maps the greedy pages up to the first driver failure. */
  lemma {:induction false} OutcomeIsGreedyPrefix(bitmap: nat, iova: nat, paddr: nat, size: nat,
                                                 failAt: nat, failRc: int)
    requires Mappable(bitmap, iova, paddr, size)
    ensures var r := Outcome(bitmap, iova, paddr, size, failAt, failRc);
            var pages := Greedy(bitmap, iova, paddr, size);
            if failAt < |pages| then
              r.0 == failRc && r.1 <= size && Aligned(r.1, Ffs(bitmap)) && size - r.1 == Total(pages[..failAt])
            else r == (VMM_OK, 0)
    decreases size
  {
    hide Pgsize, Usable, Aligned, Greedy, Outcome;
    var pages := Greedy(bitmap, iova, paddr, size);
    if size > 0 {
      GreedyHead(bitmap, iova, paddr, size);
      OutcomeStep(bitmap, iova, paddr, size, failAt, failRc);
      if failAt > 0 {
        var p := Pow2(pages[0]);
        OutcomeIsGreedyPrefix(bitmap, iova + p, paddr + p, size - p, failAt - 1, failRc);
        if failAt < |pages| {
          assert pages[..failAt][1..] == pages[1..][..failAt - 1];
        }
      }
    }
  }

  /** The driver's unmap callback removes, and reports, a non-empty prefix in
      multiples of the smallest page, no longer than asked. */
  ghost predicate UnmapContract(bitmap: nat, unmapLen: (nat, nat) -> nat) {
    bitmap > 0 ==>
      forall a: nat, p: nat :: p > 0 && Aligned(p, Ffs(bitmap)) ==>
        0 < unmapLen(a, p) <= p && Aligned(unmapLen(a, p), Ffs(bitmap))
  }

  datatype UnmapResult = Refused(rc: int) | Unmapped(len: nat)

  /** When the unroll stands at the start of the i-th page mapped, with the
      pages `i .. made` still to undo, it asks the driver for at least that
      whole page, although it looks at the I/O address alone: a driver that
      removes one mapped page per call is never asked to split it. */
  lemma {:induction false} UnrollAsksWholePages(bitmap: nat, iova: nat, paddr: nat, size: nat,
                                                made: nat, i: nat)
    requires Mappable(bitmap, iova, paddr, size)
    requires i < made <= |Greedy(bitmap, iova, paddr, size)|
    ensures var pages := Greedy(bitmap, iova, paddr, size);
            var asked := Pgsize(bitmap, iova + Total(pages[..i]), Total(pages[i..made]));
            asked.Some? && asked.value >= Pow2(pages[i])
    decreases i
  {
    hide Greedy, Mappable, Pgsize, Usable, Pow2;
    var pages := Greedy(bitmap, iova, paddr, size);
    GreedyHead(bitmap, iova, paddr, size);
    if i == 0 {
      assert pages[0..made][0] == pages[0];
      UnrollFirst(bitmap, iova, paddr, size, pages[0], Total(pages[0..made]));
      assert pages[..0] == [];
    } else {
      var p := Pow2(pages[0]);
      UnrollAsksWholePages(bitmap, iova + p, paddr + p, size - p, made - 1, i - 1);
      assert pages[..i][1..] == pages[1..][..i - 1];
      assert pages[i..made] == pages[1..][i - 1..made - 1];
    }
  }

  lemma UnrollFirst(bitmap: nat, iova: nat, paddr: nat, size: nat, k: nat, left: nat)
    requires Usable(bitmap, iova, paddr, size, k) && Pow2(k) <= left
    ensures Pgsize(bitmap, iova, left).Some? && Pgsize(bitmap, iova, left).value >= Pow2(k)
  {
    hide Pgsize, Bit, Pow2, Aligned;
    AlignedZero(k);
    OrZero(iova);
    assert Usable(bitmap, iova, 0, left, k);
    PgsizeIsLargestUsable(bitmap, iova, 0, left);
    Pow2Monotone(k, Pick(bitmap, iova, 0, left));
  }

  lemma NothingRemovedIff(before: Translation, iova: nat, len: nat)
    ensures before - Range(iova, len) == before <==> forall a: nat :: iova <= a < iova + len ==> a !in before
  {
    if before - Range(iova, len) == before {
      forall a: nat | iova <= a < iova + len ensures a !in before {
        assert a !in before - Range(iova, len);
      }
    }
  }

  lemma {:induction false} OrZero(a: nat)
    ensures Or(a, 0) == a
  {
    if a > 0 { OrZero(a / 2); }
  }

  class Domain {
    const hasUnmap: bool
    const bitmap: nat
    var trans: Translation

    constructor (hasUnmap: bool, bitmap: nat)
      ensures this.hasUnmap == hasUnmap && this.bitmap == bitmap && trans == map[]
    {
      this.hasUnmap, this.bitmap, trans := hasUnmap, bitmap, map[];
    }

    /** `vmm_iommu_map`. The driver's map callback answers its call number
        `failAt` with the error `failRc` and changes nothing then; all calls
        before succeed. `unmapLen` is what its unmap callback reports. */
    method Map(iova: nat, paddr: nat, size: nat, prot: nat,
               failAt: nat, failRc: int, unmapLen: (nat, nat) -> nat) returns (rc: int)
      requires failRc != VMM_OK
      requires UnmapContract(bitmap, unmapLen)
      modifies this
      ensures !hasUnmap || bitmap == 0 ==> rc == VMM_ENODEV && trans == old(trans)
      ensures hasUnmap && bitmap > 0 && !Mappable(bitmap, iova, paddr, size) ==>
                rc == VMM_EINVALID && trans == old(trans)
      ensures hasUnmap && Mappable(bitmap, iova, paddr, size) ==>
                var pages := Greedy(bitmap, iova, paddr, size);
                if failAt < |pages| then
                  rc == failRc && trans == old(trans) - Range(iova, Total(pages[..failAt]))
                else
                  rc == VMM_OK && trans == old(trans) + Span(iova, paddr, size, prot)
      ensures hasUnmap && Mappable(bitmap, iova, paddr, size) && failAt < |Greedy(bitmap, iova, paddr, size)| ==>
                var made := Total(Greedy(bitmap, iova, paddr, size)[..failAt]);
                trans == old(trans) <==> forall a: nat :: iova <= a < iova + made ==> a !in old(trans)
    {
      hide Pgsize, Usable, Aligned, Greedy, Outcome, Total, Or, And, Ffs, Range, Pow2;
      if !hasUnmap || bitmap == 0 {
        return VMM_ENODEV;
      }
      OrSizeAligned(iova, paddr, size, Ffs(bitmap));
      MaskAligned(Or(Or(iova, paddr), size), Ffs(bitmap));
      var minPagesz := Pow2(Ffs(bitmap));
      if And(Or(Or(iova, paddr), size), minPagesz - 1) != 0 {
        return VMM_EINVALID;
      }
      var left;
      rc, left := MapPages(iova, paddr, size, prot, failAt, failRc);
      OutcomeIsGreedyPrefix(bitmap, iova, paddr, size, failAt, failRc);
      if rc != VMM_OK {
        AlignedSub(size, left, Ffs(bitmap));
        AlignedZero(Ffs(bitmap));
        ghost var mapped := trans;
        var undone := Unmap(iova, size - left, unmapLen);
        assert forall a :: a in Range(iova, size - left) ==> a in mapped;
        assert undone == Unmapped(size - left);
        NothingRemovedIff(old(trans), iova, size - left);
      }
    }

    /** The mapping loop: asks the driver for one page after the other until
        it fails; `left` bytes are then not mapped. */
    method MapPages(iova: nat, paddr: nat, size: nat, prot: nat, failAt: nat, failRc: int)
      returns (rc: int, left: nat)
      requires Mappable(bitmap, iova, paddr, size) && failRc != VMM_OK
      modifies this
      ensures (rc, left) == Outcome(bitmap, iova, paddr, size, failAt, failRc)
      ensures left <= size
      ensures trans == old(trans) + Span(iova, paddr, size - left, prot)
    {
      hide *;
      SpanEmpty(iova, paddr, prot);
      var cur, pa, calls := iova, paddr, failAt;
      ghost var done: nat := 0;
      left, rc := size, VMM_OK;
      while left > 0
        invariant left + done == size && cur == iova + done && pa == paddr + done
        invariant Mappable(bitmap, cur, pa, left)
        invariant Outcome(bitmap, iova, paddr, size, failAt, failRc)
               == Outcome(bitmap, cur, pa, left, calls, failRc)
        invariant trans == old(trans) + Span(iova, paddr, done, prot)
        invariant rc == VMM_OK
      {
        OutcomeStep(bitmap, cur, pa, left, calls, failRc);
        var pgsize := Pgsize(bitmap, Or(cur, pa), left).value;
        if calls == 0 {
          rc := failRc;
          break;
        }
        trans := trans + Span(cur, pa, pgsize, prot);
        SpanExtends(old(trans), iova, paddr, done, pgsize, prot);
        cur, pa, left, calls := cur + pgsize, pa + pgsize, left - pgsize, calls - 1;
        done := done + pgsize;
      }
    }

    /** `vmm_iommu_unmap`: unmaps from `iova` on, until `size` bytes are gone
        or an unmapped address is met. */
    method Unmap(iova: nat, size: nat, unmapLen: (nat, nat) -> nat) returns (r: UnmapResult)
      requires UnmapContract(bitmap, unmapLen)
      modifies this
      ensures !hasUnmap || bitmap == 0 ==> r == Refused(VMM_ENODEV) && trans == old(trans)
      ensures hasUnmap && bitmap > 0 && !Mappable(bitmap, iova, 0, size) ==>
                r == Refused(VMM_EINVALID) && trans == old(trans)
      ensures hasUnmap && Mappable(bitmap, iova, 0, size) ==>
                && r.Unmapped? && r.len <= size && Aligned(r.len, Ffs(bitmap))
                && trans == old(trans) - Range(iova, r.len)
                && (r.len < size ==> iova + r.len !in old(trans))
    {
      hide Pgsize, Usable, Aligned;
      if !hasUnmap || bitmap == 0 {
        return Refused(VMM_ENODEV);
      }
      ghost var m := Ffs(bitmap);
      OrAligned(iova, size, m);
      AlignedZero(m);
      MaskAligned(Or(iova, size), m);
      var minPagesz := Pow2(Ffs(bitmap));
      if And(Or(iova, size), minPagesz - 1) != 0 {
        return Refused(VMM_EINVALID);
      }
      var cur, unmapped := iova, 0;
      while unmapped < size
        invariant unmapped <= size && cur == iova + unmapped
        invariant Aligned(cur, m) && Aligned(unmapped, m)
        invariant trans == old(trans) - Range(iova, unmapped)
      {
        AlignedSub(size, unmapped, m);
        PickAdvances(bitmap, cur, 0, size - unmapped);
        OrZero(cur);
        var pgsize := Pgsize(bitmap, cur, size - unmapped).value;
        var page := if cur in trans then unmapLen(cur, pgsize) else 0;
        if page == 0 {
          break;
        }
        trans := trans - Range(cur, page);
        AlignedAdd(cur, page, m);
        AlignedAdd(unmapped, page, m);
        cur, unmapped := cur + page, unmapped + page;
      }
      r := Unmapped(unmapped);
    }
  }

  // ----- a failed map that loses a translation -----

  lemma OnlyUnitPages(k: nat)
    ensures Bit(1, k) <==> k == 0
  {
    if k > 0 { BitOfZero(k - 1); }
  }

  lemma UnitTiling()
    ensures Mappable(1, 0, 8, 2) && |Greedy(1, 0, 8, 2)| == 2 && Total(Greedy(1, 0, 8, 2)[..1]) == 1
  {
    hide Greedy, Pgsize;
    var pages := Greedy(1, 0, 8, 2);
    GreedyHead(1, 0, 8, 2);
    OnlyUnitPages(pages[0]);
    GreedyHead(1, 1, 9, 1);
    OnlyUnitPages(pages[1..][0]);
    assert Total(pages[..1]) == Pow2(pages[0]) + Total([]);
  }

  /** I/O address 0 is mapped already. A map over it fails at its second page:
      afterwards address 0 is not mapped any more. */
  method FailedMapForgets(d: Domain, unmapLen: (nat, nat) -> nat) returns (rc: int)
    requires d.hasUnmap && d.bitmap == 1 && d.trans == map[0 := (7, 0)] && UnmapContract(1, unmapLen)
    modifies d
    ensures rc == VMM_EFAIL && d.trans == map[]
  {
    hide Greedy, Total;
    UnitTiling();
    rc := d.Map(0, 8, 2, 0, 1, VMM_EFAIL, unmapLen);
  }
}
