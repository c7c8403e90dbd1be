/** Host RAM: banks of page frames with a bitmap each, the first-fit aligned
    and colour-aware allocator, reservation and release. */
module HostRam {
  import opened Arith
  import opened Common
  import opened Frames

  /** An allocation request after the checks and the rounding. `colour` is
      `None` without colour operations, otherwise the addresses that match. */
  datatype Request = Request(order: nat, size: nat, colour: Option<set<nat>>)

  function FrameCount(r: Request): nat { SizeToPage(r.size) }

  predicate Matches(colour: Option<set<nat>>, pa: nat) {
    colour.None? || pa in colour.value
  }

  /** `q` starts a run the scan accepts: aligned, all bits read as clear, the
      colour matches. Nothing keeps the run inside the bank. */
  predicate Candidate(b: Bank, r: Request, q: nat) {
    && q < b.frames
    && Aligned(FrameAddr(b, q), r.order)
    && Range(q, FrameCount(r)) !! b.used
    && Matches(r.colour, FrameAddr(b, q))
  }

  predicate InBank(b: Bank, r: Request, q: nat) {
    q + FrameCount(r) <= b.frames
  }

  /** First candidate at or after `q`, trying every frame. */
  function FirstFit(b: Bank, r: Request, q: nat): (f: Option<nat>)
    ensures f.Some? ==> q <= f.value && Candidate(b, r, f.value)
    ensures forall k: nat :: q <= k && (f.None? || k < f.value) ==> !Candidate(b, r, k)
    decreases b.frames - q
  {
    if b.frames <= q then None
    else if Candidate(b, r, q) then Some(q)
    else FirstFit(b, r, q + 1)
  }

  /** First bank from `n` on that passes the `bmap_free` test and has a
      candidate, with that candidate. */
  function FirstBank(banks: seq<Bank>, r: Request, n: nat): (f: Option<(nat, nat)>)
    requires n <= |banks|
    ensures f.Some? ==> n <= f.value.0 < |banks| && FrameCount(r) <= banks[f.value.0].free
                        && FirstFit(banks[f.value.0], r, 0) == Some(f.value.1)
    ensures forall m :: n <= m < (if f.Some? then f.value.0 else |banks|) ==>
              banks[m].free < FrameCount(r) || FirstFit(banks[m], r, 0).None?
    decreases |banks| - n
  {
    if n == |banks| then None
    else if FrameCount(r) <= banks[n].free && FirstFit(banks[n], r, 0).Some? then
      Some((n, FirstFit(banks[n], r, 0).value))
    else FirstBank(banks, r, n + 1)
  }

  predicate ValidRequest(sz: nat, order: nat) {
    sz != 0 && PAGE_SHIFT <= order < 64
  }

  /** Result of `__host_ram_alloc`: address and size granted, and the banks. */
  function AllocSpec(banks: seq<Bank>, sz: nat, order: nat, colour: Option<set<nat>>)
    : (r: (Option<(nat, nat)>, seq<Bank>))
    ensures r.0.Some? ==>
              && ValidRequest(sz, order) && Aligned(r.0.value.0, order)
              && Aligned(r.0.value.1, order) && sz <= r.0.value.1 < sz + Pow2(order)
  {
    if !ValidRequest(sz, order) then (None, banks)
    else
      var rq := Request(order, RoundUp(sz, order), colour);
      match FirstBank(banks, rq, 0)
      case None => (None, banks)
      case Some((n, q)) =>
        (Some((FrameAddr(banks[n], q), rq.size)), banks[n := Mark(banks[n], q, FrameCount(rq))])
  }

  /** First bank from `n` on that contains `[pa, pa + sz)`. */
  function BankOf(banks: seq<Bank>, pa: nat, sz: nat, n: nat): (f: Option<nat>)
    requires n <= |banks|
    ensures f.Some? ==> n <= f.value < |banks| && banks[f.value].start <= pa && pa + sz <= End(banks[f.value])
    ensures forall m :: n <= m < (if f.Some? then f.value else |banks|) ==>
              !(banks[m].start <= pa && pa + sz <= End(banks[m]))
    decreases |banks| - n
  {
    if n == |banks| then None
    else if banks[n].start <= pa && pa + sz <= End(banks[n]) then Some(n)
    else BankOf(banks, pa, sz, n + 1)
  }

  function ReserveSpec(banks: seq<Bank>, pa: nat, sz: nat): (r: (int, seq<Bank>))
  {
    match BankOf(banks, pa, sz, 0)
    case None => (VMM_EINVALID, banks)
    case Some(n) =>
      var q, cnt := (pa - banks[n].start) / PAGE, SizeToPage(sz);
      if banks[n].free < cnt || !(Range(q, cnt) !! banks[n].used) then (VMM_ENOSPC, banks)
      else (VMM_OK, banks[n := Mark(banks[n], q, cnt)])
  }

  function FreeSpec(banks: seq<Bank>, pa: nat, sz: nat): (r: (int, seq<Bank>))
  {
    match BankOf(banks, pa, sz, 0)
    case None => (VMM_EINVALID, banks)
    case Some(n) =>
      (VMM_OK, banks[n := Clear(banks[n], (pa - banks[n].start) / PAGE, SizeToPage(sz))])
  }

  // ----- the allocator in place -----

  /** Bank starts are page aligned, as `vmm_host_ram_init` checks. */
  predicate PageAlignedBanks(banks: seq<Bank>) {
    forall n :: 0 <= n < |banks| ==> Aligned(banks[n].start, PAGE_SHIFT)
  }

  /** The first frame index the scan looks at is aligned, no earlier one is. */
  lemma FirstPosition(start: nat, order: nat, q: nat)
    requires Aligned(start, PAGE_SHIFT) && PAGE_SHIFT <= order
    ensures var low := LowBits(start, order);
            var first := if low != 0 then SizeToPage(Pow2(order) - low) else 0;
            Aligned(start + first * PAGE, order) && (q < first ==> !Aligned(start + q * PAGE, order))
  {
    var low := LowBits(start, order);
    LowBitsSplit(start, order);
    if low != 0 {
      AlignedLowBits(start, PAGE_SHIFT, order);
      AlignedPow2(PAGE_SHIFT, order);
      AlignedSub(Pow2(order), low, PAGE_SHIFT);
      PageAligned(Pow2(order) - low);
      AlignedPow2(order, order);
      AlignedAdd(start - low, Pow2(order), order);
      var first := SizeToPage(Pow2(order) - low);
      if q < first && Aligned(start + q * PAGE, order) {
        AlignedApart(start + q * PAGE, start + first * PAGE, order);
      }
    }
  }

  /** The stride of the scan steps from one aligned position to the next. */
  lemma NextPosition(start: nat, order: nat, q: nat, k: nat)
    requires PAGE_SHIFT <= order && Aligned(start + q * PAGE, order)
    ensures var stride := Pow2(order - PAGE_SHIFT);
            && stride * PAGE == Pow2(order)
            && Aligned(start + (q + stride) * PAGE, order)
            && (q < k < q + stride ==> !Aligned(start + k * PAGE, order))
  {
    var stride := Pow2(order - PAGE_SHIFT);
    Pow2Add(order - PAGE_SHIFT, PAGE_SHIFT);
    PageSize();
    AlignedPow2(order, order);
    AlignedAdd(start + q * PAGE, Pow2(order), order);
    if q < k < q + stride && Aligned(start + k * PAGE, order) {
      AlignedApart(start + q * PAGE, start + k * PAGE, order);
    }
  }

  /** The bit test over `[q, q + n)` with its early exit. */
  method RunIsClear(b: Bank, q: nat, n: nat) returns (clear: bool)
    ensures clear <==> Range(q, n) !! b.used
  {
    var i, bfree := q, 0;
    while i < q + n
      invariant q <= i <= q + n && bfree == i - q
      invariant Range(q, bfree) !! b.used
    {
      if i in b.used {
        assert i in Range(q, n);
        return false;
      }
      bfree, i := bfree + 1, i + 1;
    }
    clear := bfree == n;
  }

  /** The scan of one bank: strides over the aligned positions and finds the
      same run as the frame-by-frame search. */
  method ScanBank(b: Bank, r: Request) returns (f: Option<nat>)
    requires Aligned(b.start, PAGE_SHIFT) && PAGE_SHIFT <= r.order
    ensures f == FirstFit(b, r, 0)
  {
    hide Aligned, Pow2, LowBits, FirstFit;
    var low := LowBits(b.start, r.order);
    var stride := Pow2(r.order - PAGE_SHIFT);
    var bpos := if low != 0 then SizeToPage(Pow2(r.order) - low) else 0;
    forall q: nat | q < bpos ensures !Candidate(b, r, q) { FirstPosition(b.start, r.order, q); }
    FirstPosition(b.start, r.order, 0);
    while bpos < b.frames
      invariant Aligned(FrameAddr(b, bpos), r.order)
      invariant forall q: nat :: q < bpos ==> !Candidate(b, r, q)
    {
      var clear := RunIsClear(b, bpos, FrameCount(r));
      if clear && Matches(r.colour, FrameAddr(b, bpos)) {
        assert Candidate(b, r, bpos);
        return Some(bpos);
      }
      forall q: nat | q < bpos + stride ensures !Candidate(b, r, q) {
        NextPosition(b.start, r.order, bpos, q);
      }
      NextPosition(b.start, r.order, bpos, 0);
      bpos := bpos + stride;
    }
    f := None;
  }

  class HostRam {
    var banks: seq<Bank>

    constructor (banks: seq<Bank>)
      ensures this.banks == banks
    {
      this.banks := banks;
    }

    /** `__host_ram_alloc`; `None` is the zero size of a failed request. */
    method Alloc(sz: nat, order: nat, colour: Option<set<nat>>) returns (r: Option<(nat, nat)>)
      requires PageAlignedBanks(banks)
      modifies this
      ensures (r, banks) == AllocSpec(old(banks), sz, order, colour)
    {
      if sz == 0 || order < PAGE_SHIFT || 64 <= order {
        return None;
      }
      var rq := Request(order, RoundUp(sz, order), colour);
      var bcnt := FrameCount(rq);
      var bn := 0;
      while bn < |banks|
        invariant 0 <= bn <= |banks| && banks == old(banks)
        invariant FirstBank(banks, rq, 0) == FirstBank(banks, rq, bn)
      {
        var bank := banks[bn];
        if bcnt <= bank.free {
          var f := ScanBank(bank, rq);
          if f.Some? {
            banks := banks[bn := Mark(bank, f.value, bcnt)];
            return Some((FrameAddr(bank, f.value), rq.size));
          }
        }
        bn := bn + 1;
      }
      r := None;
    }

    /** `vmm_host_ram_reserve`. */
    method Reserve(pa: nat, sz: nat) returns (rc: int)
      modifies this
      ensures (rc, banks) == ReserveSpec(old(banks), pa, sz)
    {
      rc := VMM_EINVALID;
      var bn := 0;
      while bn < |banks|
        invariant 0 <= bn <= |banks| && banks == old(banks) && rc == VMM_EINVALID
        invariant BankOf(banks, pa, sz, 0) == BankOf(banks, pa, sz, bn)
      {
        var bank := banks[bn];
        if bank.start <= pa && pa + sz <= End(bank) {
          var bpos, bcnt := (pa - bank.start) / PAGE, SizeToPage(sz);
          if bank.free < bcnt {
            return VMM_ENOSPC;
          }
          var clear := RunIsClear(bank, bpos, bcnt);
          if !clear {
            return VMM_ENOSPC;
          }
          banks := banks[bn := Mark(bank, bpos, bcnt)];
          return VMM_OK;
        }
        bn := bn + 1;
      }
    }

    /** `vmm_host_ram_free`. */
    method Free(pa: nat, sz: nat) returns (rc: int)
      modifies this
      ensures (rc, banks) == FreeSpec(old(banks), pa, sz)
    {
      rc := VMM_EINVALID;
      var bn := 0;
      while bn < |banks|
        invariant 0 <= bn <= |banks| && banks == old(banks) && rc == VMM_EINVALID
        invariant BankOf(banks, pa, sz, 0) == BankOf(banks, pa, sz, bn)
      {
        var bank := banks[bn];
        if bank.start <= pa && pa + sz <= End(bank) {
          banks := banks[bn := Clear(bank, (pa - bank.start) / PAGE, SizeToPage(sz))];
          return VMM_OK;
        }
        bn := bn + 1;
      }
    }
  }
}
