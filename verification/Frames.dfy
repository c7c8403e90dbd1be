/** Blocks of page frames with a bitmap and a free count, as kept by the host
    RAM banks and by the page pool entries, and the book-keeping that ties the
    bits to the ranges handed out. */
module Frames {
  import opened Arith
  import opened Common

  /** A block of `frames` pages from address `start`. `used` holds the indices
      whose bit reads as set: those below `frames` are the block's own frames,
      those from `frames` on stand for the padding of the last bitmap word and
      the memory behind it. `free` is the free count. */
  datatype Bank = Bank(start: nat, frames: nat, used: set<nat>, free: int)

  function End(b: Bank): nat { b.start + b.frames * PAGE }

  /** Address of the frame at index `q`. */
  function FrameAddr(b: Bank, q: nat): nat { b.start + q * PAGE }

  function Mark(b: Bank, q: nat, n: nat): Bank {
    b.(used := b.used + Range(q, n), free := b.free - n)
  }

  function Clear(b: Bank, q: nat, n: nat): Bank {
    b.(used := b.used - Range(q, n), free := b.free + n)
  }

  // ----- counting -----

  lemma RangeNone(lo: nat)
    ensures |Range(lo, 0)| == 0
  {
  }

  lemma RangeSplit(lo: nat, n: nat)
    requires n > 0
    ensures |Range(lo, n)| == |Range(lo, n - 1)| + 1
  {
    assert Range(lo, n) == Range(lo, n - 1) + {lo + n - 1};
  }

  lemma {:induction false} RangeSize(lo: nat, n: nat)
    ensures |Range(lo, n)| == n
    decreases n
  {
    hide Range;
    if n == 0 {
      RangeNone(lo);
    } else {
      RangeSplit(lo, n);
      RangeSize(lo, n - 1);
    }
  }

  lemma {:induction false} SubsetSize<T>(a: set<T>, b: set<T>)
    requires a <= b
    ensures |a| <= |b|
  {
    if a != {} {
      var x :| x in a;
      SubsetSize(a - {x}, b - {x});
    }
  }

  lemma FullSubset<T>(a: set<T>, b: set<T>)
    requires a <= b && |a| == |b|
    ensures a == b
  {
    if x :| x in b && x !in a {
      SubsetSize(a, b - {x});
    }
  }

  /** The clear bits of a block's own frames. */
  ghost function ClearFrames(b: Bank): (s: set<nat>) {
    Range(0, b.frames) - b.used
  }

  ghost predicate CountOk(b: Bank) {
    b.free == |ClearFrames(b)|
  }

  /** No own frame is taken and the count says so. */
  ghost predicate AllFree(b: Bank) {
    b.free == b.frames && b.used !! Range(0, b.frames)
  }

  lemma AllFreeCounts(b: Bank)
    requires b.used !! Range(0, b.frames)
    ensures |ClearFrames(b)| == b.frames
  {
    assert ClearFrames(b) == Range(0, b.frames);
    RangeSize(0, b.frames);
  }

  lemma MarkKeepsCount(b: Bank, q: nat, cnt: nat)
    requires CountOk(b) && q + cnt <= b.frames && Range(q, cnt) !! b.used
    ensures CountOk(Mark(b, q, cnt))
  {
    var b' := Mark(b, q, cnt);
    assert ClearFrames(b) == ClearFrames(b') + Range(q, cnt);
    RangeSize(q, cnt);
  }

  lemma ClearKeepsCount(b: Bank, q: nat, cnt: nat)
    requires CountOk(b) && q + cnt <= b.frames && Range(q, cnt) <= b.used
    ensures CountOk(Clear(b, q, cnt))
  {
    var b' := Clear(b, q, cnt);
    assert ClearFrames(b') == ClearFrames(b) + Range(q, cnt);
    RangeSize(q, cnt);
  }

  // ----- ranges handed out -----

  type Held = set<(nat, nat)>
  type Blocks = map<nat, Bank>

  predicate Covers(h: (nat, nat), a: nat) {
    h.0 <= a < h.0 + h.1
  }

  predicate Within(b: Bank, h: (nat, nat)) {
    b.start <= h.0 && h.0 + h.1 <= End(b)
  }

  predicate Disjoint(h: (nat, nat), k: (nat, nat)) {
    h.0 + h.1 <= k.0 || k.0 + k.1 <= h.0
  }

  ghost predicate Apart(b: Bank, c: Bank) {
    End(b) <= c.start || End(c) <= b.start
  }

  /** Blocks start at page boundaries and lie apart. */
  ghost predicate BlocksOk(m: Blocks) {
    && (forall n :: n in m ==> m[n].start % PAGE == 0)
    && (forall n, k :: n in m && k in m && n != k ==> Apart(m[n], m[k]))
  }

  ghost predicate CountsOk(m: Blocks) {
    forall n :: n in m ==> CountOk(m[n])
  }

  /** The range is made of whole pages of one block. */
  ghost predicate HeldOk(m: Blocks, h: (nat, nat)) {
    && h.1 > 0 && h.0 % PAGE == 0 && h.1 % PAGE == 0
    && exists n :: n in m && Within(m[n], h)
  }

  ghost predicate AllHeldOk(m: Blocks, held: Held) {
    forall h :: h in held ==> HeldOk(m, h)
  }

  ghost predicate HeldDisjoint(held: Held) {
    forall h, k :: h in held && k in held && h != k ==> Disjoint(h, k)
  }

  ghost predicate Covered(held: Held, a: nat) {
    exists h :: h in held && Covers(h, a)
  }

  /** A frame's bit is set exactly when a range handed out covers it. */
  ghost predicate BitsMatch(m: Blocks, held: Held) {
    forall n, f: nat :: n in m && f < m[n].frames ==>
      (f in m[n].used <==> Covered(held, FrameAddr(m[n], f)))
  }

  /** Free counts are exact, the ranges handed out are whole pages of one block
      and pairwise disjoint, and the bits say which frames they cover. */
  ghost predicate Ledger(m: Blocks, held: Held) {
    BlocksOk(m) && CountsOk(m) && AllHeldOk(m, held) && HeldDisjoint(held) && BitsMatch(m, held)
  }

  /** The range made of `cnt` frames from index `q`. */
  function RunOf(b: Bank, q: nat, cnt: nat): (nat, nat) {
    (FrameAddr(b, q), cnt * PAGE)
  }

  lemma SameShape(m: Blocks, n: nat, b: Bank)
    requires BlocksOk(m) && n in m && b.start == m[n].start && b.frames == m[n].frames
    ensures BlocksOk(m[n := b])
    ensures forall h :: HeldOk(m, h) ==> HeldOk(m[n := b], h)
  {
    var m' := m[n := b];
    forall h | HeldOk(m, h) ensures HeldOk(m', h) {
      var i :| i in m && Within(m[i], h);
      assert Within(m'[i], h);
    }
  }

  /** An address of block `n` inside a range of block `k` forces `n == k`. */
  lemma CoverPinsBlock(m: Blocks, n: nat, k: nat, h: (nat, nat), a: nat)
    requires BlocksOk(m) && n in m && k in m
    requires m[n].start <= a < End(m[n]) && Within(m[k], h) && Covers(h, a)
    ensures n == k
  {
  }

  /** Covering of whole pages is decided frame by frame. */
  lemma RunCovers(b: Bank, q: nat, cnt: nat, f: nat)
    ensures Covers(RunOf(b, q, cnt), FrameAddr(b, f)) <==> f in Range(q, cnt)
  {
  }

  lemma WholePages(start: nat, a: nat, sz: nat)
    requires start % PAGE == 0 && a % PAGE == 0 && sz % PAGE == 0 && start <= a
    ensures a == start + ((a - start) / PAGE) * PAGE && sz == SizeToPage(sz) * PAGE
  {
    assert (a - start) % PAGE == 0;
  }

  lemma FramePage(b: Bank, q: nat)
    requires b.start % PAGE == 0
    ensures FrameAddr(b, q) % PAGE == 0
  {
  }

  /** A range handed out that meets a run covers one of the run's frames. */
  lemma OverlapHoldsFrame(m: Blocks, n: nat, q: nat, cnt: nat, k: (nat, nat)) returns (f: nat)
    requires BlocksOk(m) && n in m && HeldOk(m, k) && cnt > 0
    requires q + cnt <= m[n].frames && !Disjoint(RunOf(m[n], q, cnt), k)
    ensures f in Range(q, cnt) && Covers(k, FrameAddr(m[n], f))
  {
    var b := m[n];
    var i :| i in m && Within(m[i], k);
    var lo := if k.0 <= FrameAddr(b, q) then FrameAddr(b, q) else k.0;
    CoverPinsBlock(m, n, i, k, lo);
    FramePage(b, q);
    f := (lo - b.start) / PAGE;
    WholePages(b.start, lo, 0);
  }

  lemma CoveredWith(held: Held, h: (nat, nat), a: nat)
    ensures Covered(held + {h}, a) <==> Covered(held, a) || Covers(h, a)
  {
    if Covered(held, a) {
      var k :| k in held && Covers(k, a);
      assert k in held + {h};
    }
    assert h in held + {h};
  }

  lemma CoveredWithout(held: Held, h: (nat, nat), a: nat)
    requires HeldDisjoint(held) && h in held
    ensures Covered(held - {h}, a) <==> Covered(held, a) && !Covers(h, a)
  {
    if Covered(held - {h}, a) {
      var k :| k in held - {h} && Covers(k, a);
      assert k in held && Disjoint(h, k);
    }
    if Covered(held, a) && !Covers(h, a) {
      var k :| k in held && Covers(k, a);
      assert k in held - {h};
    }
  }

  /** A run of block `n` covers the frames of its range, and none of another block. */
  lemma RunCoversInBlock(m: Blocks, n: nat, q: nat, cnt: nat, k: nat, f: nat)
    requires BlocksOk(m) && n in m && q + cnt <= m[n].frames && k in m && f < m[k].frames
    ensures Covers(RunOf(m[n], q, cnt), FrameAddr(m[k], f)) <==> k == n && f in Range(q, cnt)
  {
    var h := RunOf(m[n], q, cnt);
    RunCovers(m[n], q, cnt, f);
    if Covers(h, FrameAddr(m[k], f)) {
      CoverPinsBlock(m, k, n, h, FrameAddr(m[k], f));
    }
  }

  // ----- handing out a run -----

  lemma RunIsHeldOk(m: Blocks, n: nat, q: nat, cnt: nat)
    requires BlocksOk(m) && n in m && cnt > 0 && q + cnt <= m[n].frames
    ensures HeldOk(m, RunOf(m[n], q, cnt))
  {
    assert Within(m[n], RunOf(m[n], q, cnt));
  }

  lemma NewRunDisjoint(m: Blocks, held: Held, n: nat, q: nat, cnt: nat, k: (nat, nat))
    requires Ledger(m, held) && n in m && cnt > 0 && q + cnt <= m[n].frames
    requires Range(q, cnt) !! m[n].used && k in held
    ensures Disjoint(RunOf(m[n], q, cnt), k) && Disjoint(k, RunOf(m[n], q, cnt))
  {
    if !Disjoint(RunOf(m[n], q, cnt), k) {
      var f := OverlapHoldsFrame(m, n, q, cnt, k);
      assert Covered(held, FrameAddr(m[n], f));
    }
  }

  lemma MarkKeepsDisjoint(m: Blocks, held: Held, n: nat, q: nat, cnt: nat)
    requires Ledger(m, held) && n in m && cnt > 0 && q + cnt <= m[n].frames
    requires Range(q, cnt) !! m[n].used
    ensures HeldDisjoint(held + {RunOf(m[n], q, cnt)})
  {
    hide CountOk, HeldOk, Disjoint, BitsMatch, BlocksOk, Range;
    var h := RunOf(m[n], q, cnt);
    forall k | k in held ensures Disjoint(h, k) && Disjoint(k, h) { NewRunDisjoint(m, held, n, q, cnt, k); }
  }

  lemma MarkKeepsBits(m: Blocks, held: Held, n: nat, q: nat, cnt: nat)
    requires Ledger(m, held) && n in m && q + cnt <= m[n].frames
    ensures BitsMatch(m[n := Mark(m[n], q, cnt)], held + {RunOf(m[n], q, cnt)})
  {
    hide CountOk, HeldOk, HeldDisjoint, BlocksOk, Covered, Covers;
    var m' := m[n := Mark(m[n], q, cnt)];
    var h := RunOf(m[n], q, cnt);
    forall k, f: nat | k in m' && f < m'[k].frames
      ensures f in m'[k].used <==> Covered(held + {h}, FrameAddr(m'[k], f))
    {
      CoveredWith(held, h, FrameAddr(m[k], f));
      RunCoversInBlock(m, n, q, cnt, k, f);
    }
  }

  /** Handing out a clear run inside a block keeps the books. */
  lemma MarkKeepsLedger(m: Blocks, held: Held, n: nat, q: nat, cnt: nat)
    requires Ledger(m, held) && n in m && cnt > 0 && q + cnt <= m[n].frames
    requires Range(q, cnt) !! m[n].used
    ensures Ledger(m[n := Mark(m[n], q, cnt)], held + {RunOf(m[n], q, cnt)})
  {
    hide CountOk, HeldOk, HeldDisjoint, BitsMatch, BlocksOk, Range;
    SameShape(m, n, Mark(m[n], q, cnt));
    MarkKeepsCount(m[n], q, cnt);
    RunIsHeldOk(m, n, q, cnt);
    MarkKeepsDisjoint(m, held, n, q, cnt);
    MarkKeepsBits(m, held, n, q, cnt);
  }

  // ----- taking a run back -----

  lemma HeldBitsSet(m: Blocks, held: Held, n: nat, q: nat, cnt: nat)
    requires Ledger(m, held) && n in m && q + cnt <= m[n].frames && RunOf(m[n], q, cnt) in held
    ensures Range(q, cnt) <= m[n].used
  {
    forall f: nat | f in Range(q, cnt) ensures f in m[n].used {
      RunCovers(m[n], q, cnt, f);
      assert Covered(held, FrameAddr(m[n], f));
    }
  }

  lemma ClearKeepsBits(m: Blocks, held: Held, n: nat, q: nat, cnt: nat)
    requires Ledger(m, held) && n in m && q + cnt <= m[n].frames && RunOf(m[n], q, cnt) in held
    ensures BitsMatch(m[n := Clear(m[n], q, cnt)], held - {RunOf(m[n], q, cnt)})
  {
    hide CountOk, HeldOk, HeldDisjoint, BlocksOk, Covered, Covers;
    var m' := m[n := Clear(m[n], q, cnt)];
    var h := RunOf(m[n], q, cnt);
    forall k, f: nat | k in m' && f < m'[k].frames
      ensures f in m'[k].used <==> Covered(held - {h}, FrameAddr(m'[k], f))
    {
      CoveredWithout(held, h, FrameAddr(m[k], f));
      RunCoversInBlock(m, n, q, cnt, k, f);
    }
  }

  /** Taking back a run handed out keeps the books. */
  lemma ClearKeepsLedger(m: Blocks, held: Held, n: nat, q: nat, cnt: nat)
    requires Ledger(m, held) && n in m && q + cnt <= m[n].frames && RunOf(m[n], q, cnt) in held
    ensures Ledger(m[n := Clear(m[n], q, cnt)], held - {RunOf(m[n], q, cnt)})
  {
    hide CountOk, HeldOk, Disjoint, BitsMatch, BlocksOk, Range;
    SameShape(m, n, Clear(m[n], q, cnt));
    HeldBitsSet(m, held, n, q, cnt);
    ClearKeepsCount(m[n], q, cnt);
    ClearKeepsBits(m, held, n, q, cnt);
  }

  // ----- blocks come and go -----

  /** A range handed out is a run of whole frames of its block. */
  lemma HeldIsRun(m: Blocks, held: Held, n: nat, h: (nat, nat)) returns (q: nat, cnt: nat)
    requires Ledger(m, held) && h in held && n in m && Within(m[n], h)
    ensures h == RunOf(m[n], q, cnt) && cnt > 0 && q + cnt <= m[n].frames
    ensures q == (h.0 - m[n].start) / PAGE && cnt == SizeToPage(h.1)
  {
    hide CountsOk, HeldDisjoint, BitsMatch;
    assert HeldOk(m, h);
    q, cnt := (h.0 - m[n].start) / PAGE, SizeToPage(h.1);
    WholePages(m[n].start, h.0, h.1);
  }

  lemma NewBlockUncovered(m: Blocks, held: Held, b: Bank, f: nat)
    requires Ledger(m, held) && f < b.frames
    requires forall k :: k in m ==> Apart(b, m[k])
    ensures !Covered(held, FrameAddr(b, f))
  {
    hide CountsOk, HeldDisjoint, BitsMatch, BlocksOk;
  }

  /** A fresh block, apart from the others and all free, keeps the books. */
  lemma AddBlockKeepsLedger(m: Blocks, held: Held, n: nat, b: Bank)
    requires Ledger(m, held) && n !in m && b.start % PAGE == 0 && AllFree(b)
    requires forall k :: k in m ==> Apart(b, m[k])
    ensures Ledger(m[n := b], held)
  {
    hide HeldDisjoint, HeldOk, BitsMatch, CountOk, BlocksOk;
    var m' := m[n := b];
    AddBlockShape(m, n, b);
    AddBlockBits(m, held, n, b);
    assert CountOk(b) by { AllFreeIsCounted(b); }
  }

  lemma AllFreeIsCounted(b: Bank)
    requires AllFree(b)
    ensures CountOk(b)
  {
    AllFreeCounts(b);
  }

  lemma AddBlockShape(m: Blocks, n: nat, b: Bank)
    requires BlocksOk(m) && n !in m && b.start % PAGE == 0
    requires forall k :: k in m ==> Apart(b, m[k])
    ensures BlocksOk(m[n := b])
    ensures forall h :: HeldOk(m, h) ==> HeldOk(m[n := b], h)
  {
    var m' := m[n := b];
    forall h | HeldOk(m, h) ensures HeldOk(m', h) {
      var k :| k in m && Within(m[k], h);
      assert Within(m'[k], h);
    }
  }

  lemma AddBlockBits(m: Blocks, held: Held, n: nat, b: Bank)
    requires Ledger(m, held) && n !in m && AllFree(b)
    requires forall k :: k in m ==> Apart(b, m[k])
    ensures BitsMatch(m[n := b], held)
  {
    hide HeldDisjoint, HeldOk, CountOk, BlocksOk, Covered;
    var m' := m[n := b];
    forall k, f: nat | k in m' && f < m'[k].frames
      ensures f in m'[k].used <==> Covered(held, FrameAddr(m'[k], f))
    {
      if k == n {
        assert f in Range(0, b.frames);
        NewBlockUncovered(m, held, b, f);
      }
    }
  }

  lemma HeldHasBit(m: Blocks, held: Held, n: nat, h: (nat, nat)) returns (q: nat)
    requires Ledger(m, held) && n in m && h in held && Within(m[n], h)
    ensures q in m[n].used && q in Range(0, m[n].frames)
  {
    hide CountsOk, HeldDisjoint, BitsMatch, BlocksOk;
    var cnt;
    q, cnt := HeldIsRun(m, held, n, h);
    HeldBitsSet(m, held, n, q, cnt);
    assert q in Range(q, cnt);
  }

  lemma HeldElsewhere(m: Blocks, held: Held, n: nat, h: (nat, nat))
    requires Ledger(m, held) && n in m && m[n].used !! Range(0, m[n].frames) && h in held
    ensures HeldOk(m - {n}, h)
  {
    hide CountsOk, HeldDisjoint, BitsMatch, BlocksOk;
    assert HeldOk(m, h);
    var k :| k in m && Within(m[k], h);
    if k == n {
      var q := HeldHasBit(m, held, n, h);
    } else {
      assert Within((m - {n})[k], h);
    }
  }

  /** Dropping a block none of whose frames is taken keeps the books. */
  lemma DropBlockKeepsLedger(m: Blocks, held: Held, n: nat)
    requires Ledger(m, held) && n in m && m[n].used !! Range(0, m[n].frames)
    ensures Ledger(m - {n}, held)
  {
    hide HeldDisjoint, Covered, HeldOk, CountOk;
    forall h | h in held ensures HeldOk(m - {n}, h) { HeldElsewhere(m, held, n, h); }
  }

  lemma AllFreeLedger(m: Blocks)
    requires BlocksOk(m) && forall n :: n in m ==> AllFree(m[n])
    ensures Ledger(m, {})
  {
    hide CountOk, BlocksOk;
    forall n | n in m ensures CountOk(m[n]) { AllFreeIsCounted(m[n]); }
    forall n, f: nat | n in m && f < m[n].frames ensures f !in m[n].used && !Covered({}, FrameAddr(m[n], f)) {
      assert f in Range(0, m[n].frames);
    }
  }

  lemma MarkNothing(b: Bank, q: nat)
    ensures Mark(b, q, 0) == b
  {
    assert Range(q, 0) == {};
  }

  /** When nothing is handed out every frame is free. */
  lemma NothingHeldAllFree(m: Blocks, n: nat)
    requires Ledger(m, {}) && n in m
    ensures AllFree(m[n])
  {
    forall f: nat | f in Range(0, m[n].frames) ensures f !in m[n].used {
      assert !Covered({}, FrameAddr(m[n], f));
    }
    AllFreeCounts(m[n]);
  }
}
