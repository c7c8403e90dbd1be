/** What every run of the host RAM allocator keeps, when the scan misses
    nothing, and exactly when it stays inside the bank. */
module HostRamRuns {
  import opened Arith
  import opened Common
  import opened Frames
  import opened HostRam

  // ----- completeness and the bank bound -----

  ghost predicate Fits(b: Bank, r: Request, q: nat) {
    Candidate(b, r, q) && InBank(b, r, q)
  }

  /** First-fit completeness: a valid request that is refused finds no aligned,
      free, colour-matching run of the rounded size inside any bank, so neither
      the `bmap_free` shortcut nor the stride skips one. */
  lemma AllocRefusesOnlyWhenNothingFits(banks: seq<Bank>, sz: nat, order: nat, colour: Option<set<nat>>)
    requires forall n :: 0 <= n < |banks| ==> CountOk(banks[n])
    requires ValidRequest(sz, order)
    requires AllocSpec(banks, sz, order, colour).0.None?
    ensures var r := Request(order, RoundUp(sz, order), colour);
            forall n, q: nat :: 0 <= n < |banks| ==> !Fits(banks[n], r, q)
  {
    var r := Request(order, RoundUp(sz, order), colour);
    forall n, q: nat | 0 <= n < |banks|
      ensures !Fits(banks[n], r, q)
    {
      if Fits(banks[n], r, q) {
        assert FirstFit(banks[n], r, 0).Some?;
        RangeSize(q, FrameCount(r));
        SubsetSize(Range(q, FrameCount(r)), ClearFrames(banks[n]));
      }
    }
  }

  /** The run found lies inside its bank exactly when that bank has some run
      that does: the scan overruns only if nothing inside fits and the free
      frames at the end of the bank, with what is read behind it, are enough. */
  lemma FirstFitStaysInBankIff(b: Bank, r: Request)
    requires FirstFit(b, r, 0).Some?
    ensures InBank(b, r, FirstFit(b, r, 0).value) <==> exists q: nat :: Fits(b, r, q)
  {
    var f := FirstFit(b, r, 0).value;
    if InBank(b, r, f) {
      assert Fits(b, r, f);
    }
    if q: nat :| Fits(b, r, q) {
      assert !(q < f);
    }
  }

  const FRAGMENTED := Bank(0, 4, {0, 2}, 2)

  lemma OnlyTheTailIsClear(q: nat)
    ensures Candidate(FRAGMENTED, Request(PAGE_SHIFT, 2 * PAGE, None), q) <==> q == 3
  {
    hide Aligned;
    PageAligned(q * PAGE);
    assert q in Range(q, 2) && q + 1 in Range(q, 2);
  }

  /** A bank of four frames with frames 0 and 2 taken: a request for two pages
      is granted frame 3 and the page behind the bank. */
  lemma ScanOverrunsTheBank()
    ensures CountOk(FRAGMENTED) && End(FRAGMENTED) == 4 * PAGE
    ensures AllocSpec([FRAGMENTED], 2 * PAGE, PAGE_SHIFT, None).0 == Some((3 * PAGE, 2 * PAGE))
  {
    hide Aligned, Candidate, FirstFit, FirstBank, RoundUp, Pow2;
    assert ClearFrames(FRAGMENTED) == {1, 3};
    PageAligned(2 * PAGE);
    var r := Request(PAGE_SHIFT, 2 * PAGE, None);
    OnlyTheTailIsClear(3);
    var f := FirstFit(FRAGMENTED, r, 0);
    assert f.Some?;
    OnlyTheTailIsClear(f.value);
    assert [FRAGMENTED][0] == FRAGMENTED;
    assert FirstBank([FRAGMENTED], r, 0) == Some((0, 3));
  }

  /** Colour allocations never overrun a bank whose start and size are
      multiples of the colour size. */
  lemma ColourAllocStaysInBank(b: Bank, order: nat, colour: Option<set<nat>>, q: nat)
    requires PAGE_SHIFT <= order
    requires Aligned(b.start, order) && Aligned(b.frames * PAGE, order)
    requires Candidate(b, Request(order, RoundUp(Pow2(order), order), colour), q)
    ensures InBank(b, Request(order, RoundUp(Pow2(order), order), colour), q)
  {
    AlignedPow2(order, order);
    AlignedPow2(PAGE_SHIFT, order);
    PageAligned(Pow2(order));
    AlignedAdd(b.start, b.frames * PAGE, order);
    AlignedApart(FrameAddr(b, q), End(b), order);
  }

  // ----- runs -----

  datatype Op =
    | AllocOp(sz: nat, order: nat, colour: Option<set<nat>>)
    | ReserveOp(pa: nat, sz: nat)
    | FreeOp(pa: nat, sz: nat)

  /** The banks and the ranges handed out and not yet given back. */
  datatype State = State(banks: seq<Bank>, held: Held)

  ghost function Step(s: State, op: Op): State {
    match op
    case AllocOp(sz, order, colour) =>
      var (r, banks) := AllocSpec(s.banks, sz, order, colour);
      State(banks, if r.Some? then s.held + {r.value} else s.held)
    case ReserveOp(pa, sz) =>
      var (rc, banks) := ReserveSpec(s.banks, pa, sz);
      State(banks, if rc == VMM_OK && sz > 0 then s.held + {(pa, sz)} else s.held)
    case FreeOp(pa, sz) =>
      State(FreeSpec(s.banks, pa, sz).1, s.held - {(pa, sz)})
  }

  /** The run that a request is granted, if any, lies inside its bank. */
  ghost predicate GrantInBank(banks: seq<Bank>, sz: nat, order: nat, colour: Option<set<nat>>) {
    ValidRequest(sz, order) ==>
      var r := Request(order, RoundUp(sz, order), colour);
      var f := FirstBank(banks, r, 0);
      f.Some? ==> InBank(banks[f.value.0], r, f.value.1)
  }

  /** Callers free what they hold and reserve whole pages; a run found stays in
      its bank (see `FirstFitStaysInBankIff`). */
  ghost predicate Allowed(s: State, op: Op) {
    match op
    case AllocOp(sz, order, colour) => GrantInBank(s.banks, sz, order, colour)
    case ReserveOp(pa, sz) => pa % PAGE == 0 && sz % PAGE == 0
    case FreeOp(pa, sz) => (pa, sz) in s.held
  }

  /** The banks by index. */
  ghost function AsBlocks(banks: seq<Bank>): (m: Blocks)
    ensures forall n: nat :: n in m <==> n < |banks|
    ensures forall n: nat :: n < |banks| ==> m[n] == banks[n]
  {
    map n: nat | n in Range(0, |banks|) :: banks[n]
  }

  lemma UpdateBlocks(banks: seq<Bank>, n: nat, b: Bank)
    requires n < |banks|
    ensures AsBlocks(banks[n := b]) == AsBlocks(banks)[n := b]
  {
  }

  /** Free counts equal the clear bits; the ranges held are disjoint, made of
      whole pages of one bank, and exactly the frames whose bits are set. */
  ghost predicate Inv(s: State) {
    Ledger(AsBlocks(s.banks), s.held)
  }

  lemma CandidateIsClear(b: Bank, r: Request, q: nat)
    requires FirstFit(b, r, 0) == Some(q)
    ensures Range(q, FrameCount(r)) !! b.used
  {
  }

  lemma AllocKeepsInv(s: State, sz: nat, order: nat, colour: Option<set<nat>>)
    requires Inv(s) && Allowed(s, AllocOp(sz, order, colour))
    ensures Inv(Step(s, AllocOp(sz, order, colour)))
  {
    hide Ledger, AsBlocks, Candidate, FirstFit, RoundUp, Range;
    if ValidRequest(sz, order) {
      var r := Request(order, RoundUp(sz, order), colour);
      var f := FirstBank(s.banks, r, 0);
      if f.Some? {
        var (n, q) := f.value;
        AlignedToSmaller(r.size, PAGE_SHIFT, order);
        PageAligned(r.size);
        CandidateIsClear(s.banks[n], r, q);
        MarkKeepsLedger(AsBlocks(s.banks), s.held, n, q, FrameCount(r));
        UpdateBlocks(s.banks, n, Mark(s.banks[n], q, FrameCount(r)));
      }
    }
  }

  lemma BankStart(s: State, n: nat)
    requires Inv(s) && n < |s.banks|
    ensures s.banks[n].start % PAGE == 0
  {
    hide CountsOk, AllHeldOk, HeldDisjoint, BitsMatch;
    assert n in AsBlocks(s.banks);
  }

  lemma ReserveKeepsInv(s: State, pa: nat, sz: nat)
    requires Inv(s) && Allowed(s, ReserveOp(pa, sz))
    ensures Inv(Step(s, ReserveOp(pa, sz)))
  {
    hide CountsOk, AllHeldOk, HeldDisjoint, BitsMatch, AsBlocks, Range, BlocksOk, BankOf;
    var f := BankOf(s.banks, pa, sz, 0);
    if f.Some? {
      var n, b := f.value, s.banks[f.value];
      BankStart(s, n);
      var q, cnt := (pa - b.start) / PAGE, SizeToPage(sz);
      WholePages(b.start, pa, sz);
      if sz == 0 {
        MarkNothing(b, q);
        assert s.banks[n := b] == s.banks;
      } else if cnt <= b.free && Range(q, cnt) !! b.used {
        MarkKeepsLedger(AsBlocks(s.banks), s.held, n, q, cnt);
        UpdateBlocks(s.banks, n, Mark(b, q, cnt));
      }
    }
  }

  /** A run of a bank is clear exactly when it meets no range held. */
  lemma ClearIsUnheld(s: State, n: nat, q: nat, cnt: nat)
    requires Inv(s) && n < |s.banks| && cnt > 0 && q + cnt <= s.banks[n].frames
    ensures Range(q, cnt) !! s.banks[n].used <==> forall h :: h in s.held ==> Disjoint(RunOf(s.banks[n], q, cnt), h)
  {
    hide CountsOk, HeldDisjoint, BlocksOk, AsBlocks;
    var m := AsBlocks(s.banks);
    if Range(q, cnt) !! s.banks[n].used {
      forall h | h in s.held ensures Disjoint(RunOf(s.banks[n], q, cnt), h) {
        NewRunDisjoint(m, s.held, n, q, cnt, h);
      }
    } else {
      var f: nat :| f in Range(q, cnt) && f in s.banks[n].used;
      assert n in m && Covered(s.held, FrameAddr(m[n], f));
      var h :| h in s.held && Covers(h, FrameAddr(m[n], f));
      RunCovers(m[n], q, cnt, f);
      assert !Disjoint(RunOf(s.banks[n], q, cnt), h);
    }
  }

  /** Freeing succeeds exactly when the range lies in one bank, and changes
      nothing otherwise. */
  lemma FreeAnswers(banks: seq<Bank>, pa: nat, sz: nat)
    ensures var r := FreeSpec(banks, pa, sz);
            if exists n :: 0 <= n < |banks| && Within(banks[n], (pa, sz)) then r.0 == VMM_OK
            else r == (VMM_EINVALID, banks)
  {
    if BankOf(banks, pa, sz, 0).Some? {
      assert Within(banks[BankOf(banks, pa, sz, 0).value], (pa, sz));
    }
  }

  /** A whole-page reservation succeeds exactly when the range lies in one bank
      and meets no range held; outside every bank it is invalid, and otherwise
      there is no space. A refusal changes nothing. */
  lemma ReserveAnswers(s: State, pa: nat, sz: nat)
    requires Inv(s) && pa % PAGE == 0 && sz % PAGE == 0 && sz > 0
    ensures var (rc, banks) := ReserveSpec(s.banks, pa, sz);
            && (rc == VMM_EINVALID <==> forall n :: 0 <= n < |s.banks| ==> !Within(s.banks[n], (pa, sz)))
            && (rc == VMM_OK <==>
                  && (exists n :: 0 <= n < |s.banks| && Within(s.banks[n], (pa, sz)))
                  && forall h :: h in s.held ==> Disjoint((pa, sz), h))
            && (rc != VMM_OK ==> banks == s.banks)
            && (rc != VMM_OK && rc != VMM_EINVALID ==> rc == VMM_ENOSPC)
  {
    hide CountsOk, AllHeldOk, HeldDisjoint, BitsMatch, AsBlocks, Range, BlocksOk, BankOf;
    var f := BankOf(s.banks, pa, sz, 0);
    if f.Some? {
      var n, b := f.value, s.banks[f.value];
      BankStart(s, n);
      WholePages(b.start, pa, sz);
      var q, cnt := (pa - b.start) / PAGE, SizeToPage(sz);
      ClearIsUnheld(s, n, q, cnt);
      assert RunOf(b, q, cnt) == (pa, sz) && Within(b, (pa, sz));
      if Range(q, cnt) !! b.used { EnoughFree(s, n, q, cnt); }
    }
  }

  lemma EnoughFree(s: State, n: nat, q: nat, cnt: nat)
    requires Inv(s) && n < |s.banks| && q + cnt <= s.banks[n].frames && Range(q, cnt) !! s.banks[n].used
    ensures cnt <= s.banks[n].free
  {
    hide AllHeldOk, HeldDisjoint, BitsMatch, BlocksOk;
    assert n in AsBlocks(s.banks) && CountOk(s.banks[n]);
    RangeSize(q, cnt);
    SubsetSize(Range(q, cnt), ClearFrames(s.banks[n]));
  }

  lemma FreeKeepsInv(s: State, pa: nat, sz: nat)
    requires Inv(s) && Allowed(s, FreeOp(pa, sz))
    ensures FreeSpec(s.banks, pa, sz).0 == VMM_OK && Inv(Step(s, FreeOp(pa, sz)))
  {
    hide CountsOk, HeldDisjoint, BitsMatch, BlocksOk, AsBlocks, Range;
    var m := AsBlocks(s.banks);
    assert HeldOk(m, (pa, sz));
    var k :| k in m && Within(m[k], (pa, sz));
    var n := BankOf(s.banks, pa, sz, 0).value;
    var q, cnt := HeldIsRun(m, s.held, n, (pa, sz));
    ClearKeepsLedger(m, s.held, n, q, cnt);
    UpdateBlocks(s.banks, n, Clear(s.banks[n], q, cnt));
  }

  lemma StepKeepsInv(s: State, op: Op)
    requires Inv(s) && Allowed(s, op)
    ensures Inv(Step(s, op))
  {
    hide Inv, Allowed, Step;
    match op
    case AllocOp(sz, order, colour) => AllocKeepsInv(s, sz, order, colour);
    case ReserveOp(pa, sz) => ReserveKeepsInv(s, pa, sz);
    case FreeOp(pa, sz) => FreeKeepsInv(s, pa, sz);
  }

  ghost function Exec(s: State, ops: seq<Op>): State
    decreases |ops|
  {
    if ops == [] then s else Exec(Step(s, ops[0]), ops[1..])
  }

  ghost predicate AllAllowed(s: State, ops: seq<Op>)
    decreases |ops|
  {
    ops == [] || (Allowed(s, ops[0]) && AllAllowed(Step(s, ops[0]), ops[1..]))
  }

  /** Over every run the free counts equal the clear bits and the held ranges
      stay disjoint, page aligned and inside one bank. */
  lemma {:induction false} EveryRunKeepsInv(s: State, ops: seq<Op>)
    requires Inv(s) && AllAllowed(s, ops)
    ensures Inv(Exec(s, ops))
    decreases |ops|
  {
    hide Inv, Allowed, Step;
    if ops != [] {
      StepKeepsInv(s, ops[0]);
      EveryRunKeepsInv(Step(s, ops[0]), ops[1..]);
    }
  }

  // ----- colour allocations need no assumption about the scan -----

  /** Start and size of every bank are multiples of 2^order. */
  ghost predicate Multiples(banks: seq<Bank>, order: nat) {
    forall n :: 0 <= n < |banks| ==> Aligned(banks[n].start, order) && Aligned(banks[n].frames * PAGE, order)
  }

  /** What a colour allocation is granted stays in its bank. */
  lemma ColourGrantInBank(banks: seq<Bank>, order: nat, colour: Option<set<nat>>)
    requires Multiples(banks, order)
    ensures GrantInBank(banks, Pow2(order), order, colour)
  {
    hide Aligned, RoundUp, Pow2, InBank, Candidate;
    if ValidRequest(Pow2(order), order) {
      var r := Request(order, RoundUp(Pow2(order), order), colour);
      var f := FirstBank(banks, r, 0);
      if f.Some? {
        ColourAllocStaysInBank(banks[f.value.0], order, colour, f.value.1);
      }
    }
  }

  /** Allocations are of one colour page each; the rest as ever. */
  ghost predicate ColourAllowed(s: State, order: nat, op: Op) {
    match op
    case AllocOp(sz, o, colour) => sz == Pow2(order) && o == order
    case ReserveOp(pa, sz) => pa % PAGE == 0 && sz % PAGE == 0
    case FreeOp(pa, sz) => (pa, sz) in s.held
  }

  ghost predicate ColourRun(s: State, order: nat, ops: seq<Op>)
    decreases |ops|
  {
    ops == [] || (ColourAllowed(s, order, ops[0]) && ColourRun(Step(s, ops[0]), order, ops[1..]))
  }

  lemma StepKeepsMultiples(s: State, op: Op, order: nat)
    requires Multiples(s.banks, order)
    ensures Multiples(Step(s, op).banks, order)
  {
    hide Aligned, RoundUp, FirstFit, Range, FirstBank, BankOf;
  }

  /** Over banks that are multiples of the colour size, every run of colour
      allocations, whole-page reservations and frees of held ranges keeps the
      books, with nothing assumed about where the scan ends. */
  lemma {:induction false} EveryColourRunKeepsInv(s: State, order: nat, ops: seq<Op>)
    requires Inv(s) && Multiples(s.banks, order) && ColourRun(s, order, ops)
    ensures Inv(Exec(s, ops)) && AllAllowed(s, ops)
    decreases |ops|
  {
    hide Inv, Step, Multiples, GrantInBank;
    if ops != [] {
      if ops[0].AllocOp? { ColourGrantInBank(s.banks, order, ops[0].colour); }
      StepKeepsInv(s, ops[0]);
      StepKeepsMultiples(s, ops[0], order);
      EveryColourRunKeepsInv(Step(s, ops[0]), order, ops[1..]);
    }
  }

  /** The state `vmm_host_ram_init` leaves: no frame taken, all counted free. */
  lemma InitialStateIsGood(banks: seq<Bank>)
    requires BlocksOk(AsBlocks(banks)) && forall n :: 0 <= n < |banks| ==> AllFree(banks[n])
    ensures Inv(State(banks, {}))
  {
    hide AsBlocks, BlocksOk, AllFree, Ledger;
    AllFreeLedger(AsBlocks(banks));
  }

  /** When nothing is held any more, every frame is free again. */
  lemma GivingAllBackFreesEverything(s: State, n: nat)
    requires Inv(s) && s.held == {} && n < |s.banks|
    ensures AllFree(s.banks[n])
  {
    hide Ledger, AsBlocks;
    NothingHeldAllFree(AsBlocks(s.banks), n);
  }
}
