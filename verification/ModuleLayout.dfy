/** Module loading: the multi-pass layout of the ELF sections and the copy of
    the sections into their pages. */
module ModuleLayout {
  import opened Common
  import opened Arith

  /** `core_size`, `core_text_size` and `core_ro_size` are 32 bits wide. */
  const LIMIT: nat := U32_RANGE

  /** A section header with its contents. `sh_addralign` is 2^order; an absent
      alignment is order 0. `nobits` sections have no file contents. */
  datatype Sec = Sec(
    alloc: bool, exec: bool, write: bool, small: bool, nobits: bool, order: nat, size: nat, data: seq<Byte>)

  /** Whether the architecture has a small-data flag, and whether the parts of a
      module are page aligned. */
  datatype Arch = Arch(small: bool, ronx: bool)

  /** The offsets given so far (`sh_entsize`) and the running sizes. */
  datatype Lay = Lay(off: seq<Option<nat>>, size: nat, text: nat, ro: nat)

  // ----- the layout as a function -----

  /** 32-bit truncation; `wide` is the layout without it. */
  function Wrap(x: nat, wide: bool): nat { if wide then x else x % LIMIT }

  predicate IsSmall(s: Sec, a: Arch) { a.small && s.small }

  /** The four flag masks. */
  predicate InPass(s: Sec, m: nat, a: Arch) {
    s.alloc && (
      if m == 0 then s.exec && !IsSmall(s, a)
      else if m == 1 then !s.write && !IsSmall(s, a)
      else if m == 2 then s.write && !IsSmall(s, a)
      else a.small ==> s.small
    )
  }

  /** `get_offset` for section `i`. */
  function Put(l: Lay, i: nat, s: Sec, wide: bool): Lay
    requires i < |l.off|
  {
    var o := Wrap(RoundUp(l.size, s.order), wide);
    l.(off := l.off[i := Some(o)], size := Wrap(o + s.size, wide))
  }

  /** Pass `m` over the sections from `i` on. */
  function Sweep(l: Lay, secs: seq<Sec>, m: nat, i: nat, a: Arch, wide: bool): (r: Lay)
    requires |l.off| == |secs| && i <= |secs|
    ensures |r.off| == |secs|
    decreases |secs| - i
  {
    if i == |secs| then l else Sweep(PutIf(l, secs, m, i, a, wide), secs, m, i + 1, a, wide)
  }

  function PutIf(l: Lay, secs: seq<Sec>, m: nat, i: nat, a: Arch, wide: bool): (r: Lay)
    requires |l.off| == |secs| && i < |secs|
    ensures |r.off| == |secs|
  {
    if InPass(secs[i], m, a) && l.off[i].None? then Put(l, i, secs[i], wide) else l
  }

  /** `debug_align`. */
  function DebugAlign(x: nat, a: Arch, wide: bool): nat {
    if a.ronx then Wrap(RoundUp(x, PAGE_SHIFT), wide) else x
  }

  /** The end of pass `m`. */
  function Close(l: Lay, m: nat, a: Arch, wide: bool): (r: Lay)
    ensures r.off == l.off
  {
    if m == 2 then l
    else
      var z := DebugAlign(l.size, a, wide);
      if m == 0 then l.(size := z, text := z) else if m == 1 then l.(size := z, ro := z) else l.(size := z)
  }

  function Pass(l: Lay, secs: seq<Sec>, m: nat, a: Arch, wide: bool): (r: Lay)
    requires |l.off| == |secs|
    ensures |r.off| == |secs|
  {
    Close(Sweep(l, secs, m, 0, a, wide), m, a, wide)
  }

  function Empty(n: nat): Lay { Lay(seq(n, i => None), 0, 0, 0) }

  /** The first `m` passes. */
  function Passes(secs: seq<Sec>, m: nat, a: Arch, wide: bool): (r: Lay)
    ensures |r.off| == |secs|
  {
    if m == 0 then Empty(|secs|) else Pass(Passes(secs, m - 1, a, wide), secs, m - 1, a, wide)
  }

  /** `layout_sections`. */
  function Layout(secs: seq<Sec>, a: Arch, wide: bool): (r: Lay)
    ensures |r.off| == |secs|
  {
    Passes(secs, 4, a, wide)
  }

  // ----- what a layout promises -----

  /** The pass that places an allocatable section. */
  function PassOf(s: Sec, a: Arch): nat {
    if IsSmall(s, a) then 3 else if s.exec then 0 else if !s.write then 1 else 2
  }

  lemma PassOfIsFirst(s: Sec, m: nat, a: Arch)
    requires m < 4
    ensures InPass(s, m, a) ==> PassOf(s, a) <= m
    ensures PassOf(s, a) == m && s.alloc ==> InPass(s, m, a)
    ensures InPass(s, m, a) ==> s.alloc
  {
  }

  /** Section `j` comes before section `k` in the module. */
  predicate Before(secs: seq<Sec>, a: Arch, j: nat, k: nat)
    requires j < |secs| && k < |secs|
  {
    PassOf(secs[j], a) < PassOf(secs[k], a) || (PassOf(secs[j], a) == PassOf(secs[k], a) && j < k)
  }

  /** Placed by pass `m` up to section `i` or by an earlier pass. */
  predicate Done(s: Sec, k: nat, a: Arch, m: nat, i: nat) {
    s.alloc && (PassOf(s, a) < m || (PassOf(s, a) == m && k < i))
  }

  predicate PlacedOk(l: Lay, secs: seq<Sec>, a: Arch, m: nat, i: nat) {
    && |l.off| == |secs|
    && forall k :: 0 <= k < |secs| ==> (l.off[k].Some? <==> Done(secs[k], k, a, m, i))
  }

  predicate FitsOk(l: Lay, secs: seq<Sec>)
    requires |l.off| == |secs|
  {
    forall k :: 0 <= k < |secs| && l.off[k].Some? ==>
      Aligned(l.off[k].value, secs[k].order) && l.off[k].value + secs[k].size <= l.size
  }

  predicate OrderOk(l: Lay, secs: seq<Sec>, a: Arch)
    requires |l.off| == |secs|
  {
    forall j, k :: 0 <= j < |secs| && 0 <= k < |secs| && l.off[j].Some? && l.off[k].Some? && Before(secs, a, j, k) ==>
      l.off[j].value + secs[j].size <= l.off[k].value
  }

  /** The sections of the passes before `m` end at or below `at`, the others
      start at or above it. */
  predicate Divides(l: Lay, secs: seq<Sec>, a: Arch, m: nat, at: nat)
    requires |l.off| == |secs|
  {
    forall k :: 0 <= k < |secs| && l.off[k].Some? ==>
      if PassOf(secs[k], a) < m then l.off[k].value + secs[k].size <= at else at <= l.off[k].value
  }

  predicate BoundsOk(l: Lay, secs: seq<Sec>, a: Arch, m: nat)
    requires |l.off| == |secs|
  {
    && (m > 0 ==> l.text <= l.size && Divides(l, secs, a, 1, l.text))
    && (m > 1 ==> l.text <= l.ro <= l.size && Divides(l, secs, a, 2, l.ro))
  }

  predicate Inv(l: Lay, secs: seq<Sec>, a: Arch, m: nat, i: nat) {
    PlacedOk(l, secs, a, m, i) && FitsOk(l, secs) && OrderOk(l, secs, a) && BoundsOk(l, secs, a, m)
  }

  /** A finished layout: exactly the allocatable sections have an offset, each
      is aligned and below `core_size`, they follow one another in the order
      code, read-only data, data, small data, and the sizes divide them. */
  predicate Good(l: Lay, secs: seq<Sec>, a: Arch) { Inv(l, secs, a, 4, 0) }

  // ----- without truncation every layout is good -----

  lemma PutKeepsInv(l: Lay, secs: seq<Sec>, a: Arch, m: nat, i: nat)
    requires m < 4 && i < |secs| && Inv(l, secs, a, m, i)
    ensures Inv(PutIf(l, secs, m, i, a, true), secs, a, m, i + 1)
  {
    hide Aligned, RoundUp, InPass, PassOf;
    PassOfIsFirst(secs[i], m, a);
    var r := PutIf(l, secs, m, i, a, true);
    if r != l {
      assert l.off[i].None? && r.off[i] == Some(RoundUp(l.size, secs[i].order));
      assert forall k :: 0 <= k < |secs| && k != i ==> r.off[k] == l.off[k];
      assert l.size <= r.off[i].value && r.size == r.off[i].value + secs[i].size;
      assert PassOf(secs[i], a) == m;
    }
  }

  lemma {:induction false} SweepKeepsInv(l: Lay, secs: seq<Sec>, a: Arch, m: nat, i: nat)
    requires m < 4 && i <= |secs| && Inv(l, secs, a, m, i)
    ensures Inv(Sweep(l, secs, m, i, a, true), secs, a, m, |secs|)
    decreases |secs| - i
  {
    hide FitsOk, OrderOk, BoundsOk, Done, PutIf;
    if i < |secs| {
      PutKeepsInv(l, secs, a, m, i);
      SweepKeepsInv(PutIf(l, secs, m, i, a, true), secs, a, m, i + 1);
    }
  }

  lemma CloseKeepsInv(l: Lay, secs: seq<Sec>, a: Arch, m: nat)
    requires m < 4 && Inv(l, secs, a, m, |secs|)
    ensures Inv(Close(l, m, a, true), secs, a, m + 1, 0)
  {
    hide Aligned, RoundUp, PassOf;
    var r := Close(l, m, a, true);
    assert l.size <= r.size;
  }

  lemma {:induction false} PassesAreGood(secs: seq<Sec>, a: Arch, m: nat)
    requires m <= 4
    ensures Inv(Passes(secs, m, a, true), secs, a, m, 0)
    decreases m
  {
    hide Sweep, Close;
    if m > 0 {
      hide Inv;
      PassesAreGood(secs, a, m - 1);
      SweepKeepsInv(Passes(secs, m - 1, a, true), secs, a, m - 1, 0);
      CloseKeepsInv(Sweep(Passes(secs, m - 1, a, true), secs, m - 1, 0, a, true), secs, a, m - 1);
    }
  }

  // ----- no room is wasted -----

  /** Some section ends at `x`. */
  predicate EndsAt(l: Lay, secs: seq<Sec>, x: nat)
    requires |l.off| == |secs|
  {
    exists k :: 0 <= k < |secs| && l.off[k].Some? && l.off[k].value + secs[k].size == x
  }

  /** `x` is where something ends: the start, a section, the text or the
      read-only part. */
  predicate Edge(l: Lay, secs: seq<Sec>, x: nat)
    requires |l.off| == |secs|
  {
    x == 0 || x == l.text || x == l.ro || EndsAt(l, secs, x)
  }

  /** `y` is less than `gap` behind an edge. */
  predicate Behind(l: Lay, secs: seq<Sec>, y: nat, gap: nat)
    requires |l.off| == |secs|
  {
    exists x: nat :: Edge(l, secs, x) && x <= y < x + gap
  }

  function Gap(a: Arch): nat { if a.ronx then PAGE else 1 }

  /** Every section starts at the first aligned place behind an edge. */
  predicate Snug(l: Lay, secs: seq<Sec>)
    requires |l.off| == |secs|
  {
    forall k :: 0 <= k < |secs| && l.off[k].Some? ==> Behind(l, secs, l.off[k].value, Pow2(secs[k].order))
  }

  predicate Tight(l: Lay, secs: seq<Sec>, a: Arch, m: nat) {
    && |l.off| == |secs| && Snug(l, secs) && (m == 0 ==> l.text == 0) && (m <= 1 ==> l.ro == 0)
    && (m < 4 ==> Edge(l, secs, l.size)) && Behind(l, secs, l.size, Gap(a))
  }

  lemma EdgeStays(l: Lay, r: Lay, secs: seq<Sec>, y: nat, gap: nat)
    requires |l.off| == |r.off| == |secs| && (l.text == 0 || r.text == l.text) && (l.ro == 0 || r.ro == l.ro)
    requires forall k :: 0 <= k < |secs| && l.off[k].Some? ==> r.off[k] == l.off[k]
    ensures Edge(l, secs, y) ==> Edge(r, secs, y)
    ensures Behind(l, secs, y, gap) ==> Behind(r, secs, y, gap)
  {
    forall x: nat | Edge(l, secs, x) ensures Edge(r, secs, x) {
      if EndsAt(l, secs, x) {
        var k :| 0 <= k < |secs| && l.off[k].Some? && l.off[k].value + secs[k].size == x;
        assert r.off[k] == l.off[k];
      }
    }
  }

  lemma PutKeepsTight(l: Lay, secs: seq<Sec>, a: Arch, m: nat, i: nat)
    requires m < 4 && i < |secs| && Tight(l, secs, a, m)
    ensures Tight(PutIf(l, secs, m, i, a, true), secs, a, m)
  {
    hide Aligned, RoundUp, InPass, Edge, EndsAt, Behind, Pow2;
    var r := PutIf(l, secs, m, i, a, true);
    if r != l {
      assert r.off[i] == Some(RoundUp(l.size, secs[i].order)) && l.off[i].None?;
      forall k | 0 <= k < |secs| && r.off[k].Some? ensures Behind(r, secs, r.off[k].value, Pow2(secs[k].order)) {
        if k == i {
          EdgeStays(l, r, secs, l.size, 1);
          EdgeIsBehind(r, secs, l.size, r.off[i].value, Pow2(secs[i].order));
        } else {
          assert r.off[k] == l.off[k];
          EdgeStays(l, r, secs, l.off[k].value, Pow2(secs[k].order));
        }
      }
      PlacedIsEdge(r, secs, i);
      EdgeIsBehind(r, secs, r.size, r.size, Gap(a));
    }
  }

  lemma EdgeIsBehind(l: Lay, secs: seq<Sec>, x: nat, y: nat, gap: nat)
    requires |l.off| == |secs| && Edge(l, secs, x) && x <= y < x + gap
    ensures Behind(l, secs, y, gap)
  {
  }

  lemma PlacedIsEdge(l: Lay, secs: seq<Sec>, i: nat)
    requires |l.off| == |secs| && i < |secs| && l.off[i].Some?
    ensures Edge(l, secs, l.off[i].value + secs[i].size)
  {
  }

  lemma {:induction false} SweepKeepsTight(l: Lay, secs: seq<Sec>, a: Arch, m: nat, i: nat)
    requires m < 4 && i <= |secs| && Tight(l, secs, a, m)
    ensures Tight(Sweep(l, secs, m, i, a, true), secs, a, m)
    decreases |secs| - i
  {
    hide Snug, Edge, Behind, PutIf;
    if i < |secs| {
      PutKeepsTight(l, secs, a, m, i);
      SweepKeepsTight(PutIf(l, secs, m, i, a, true), secs, a, m, i + 1);
    }
  }

  /** The end of pass `m`: the size is rounded up by less than the gap, and the
      text and read-only parts end there. */
  lemma CloseKeepsTight(l: Lay, secs: seq<Sec>, a: Arch, m: nat)
    requires m < 4 && Tight(l, secs, a, m)
    ensures Tight(Close(l, m, a, true), secs, a, m + 1)
    ensures var r := Close(l, m, a, true);
            && (m == 0 ==> r.text == r.size && Behind(l, secs, r.text, Gap(a)))
            && (m == 1 ==> r.ro == r.size && Behind(l, secs, r.ro, Gap(a)))
  {
    hide Aligned, RoundUp, Edge, EndsAt, Behind, Pow2;
    var r := Close(l, m, a, true);
    PageSize();
    forall k | 0 <= k < |secs| && r.off[k].Some? ensures Behind(r, secs, r.off[k].value, Pow2(secs[k].order)) {
      EdgeStays(l, r, secs, l.off[k].value, Pow2(secs[k].order));
    }
    EdgeStays(l, r, secs, l.size, Gap(a));
    EdgeIsBehind(r, secs, l.size, r.size, Gap(a));
    EdgeIsBehind(l, secs, l.size, r.size, Gap(a));
    PartIsEdge(r, secs);
    if m < 3 { EdgeIsBehind(r, secs, r.size, r.size, Gap(a)); }
  }

  lemma PartIsEdge(l: Lay, secs: seq<Sec>)
    requires |l.off| == |secs|
    ensures Edge(l, secs, l.text) && Edge(l, secs, l.ro) && Edge(l, secs, 0)
  {
  }

  lemma {:induction false} PassesAreTight(secs: seq<Sec>, a: Arch, m: nat)
    requires m <= 4
    ensures Tight(Passes(secs, m, a, true), secs, a, m)
    decreases m
  {
    hide Sweep, Close, Snug, Edge, Behind;
    if m == 0 {
      EmptyIsTight(secs, a);
    } else {
      PassesAreTight(secs, a, m - 1);
      SweepKeepsTight(Passes(secs, m - 1, a, true), secs, a, m - 1, 0);
      CloseKeepsTight(Sweep(Passes(secs, m - 1, a, true), secs, m - 1, 0, a, true), secs, a, m - 1);
    }
  }

  lemma EmptyIsTight(secs: seq<Sec>, a: Arch)
    ensures Tight(Empty(|secs|), secs, a, 0)
  {
    PartIsEdge(Empty(|secs|), secs);
    EdgeIsBehind(Empty(|secs|), secs, 0, 0, Gap(a));
  }

  /** A layout that fits wastes no room: every section starts at the first place
      of its alignment behind another section, the text part, the read-only part
      or the start, and so does the end. */
  lemma LayoutIsTight(secs: seq<Sec>, a: Arch)
    requires Layout(secs, a, true).size < LIMIT
    ensures Snug(Layout(secs, a, false), secs)
    ensures Behind(Layout(secs, a, false), secs, Layout(secs, a, false).size, Gap(a))
  {
    hide Snug, Behind, Passes, Edge;
    PassesAreTight(secs, a, 4);
    PassesSame(secs, a, 4);
  }

  // ----- with page-aligned parts no page mixes them -----

  /** The parts that are closed so far end at page boundaries. */
  predicate PagedParts(l: Lay, m: nat) {
    && (m > 0 ==> Aligned(l.text, PAGE_SHIFT)) && (m > 1 ==> Aligned(l.ro, PAGE_SHIFT))
    && (m > 3 ==> Aligned(l.size, PAGE_SHIFT))
  }

  lemma {:induction false} PassesArePaged(secs: seq<Sec>, a: Arch, m: nat)
    requires a.ronx && m <= 4
    ensures PagedParts(Passes(secs, m, a, true), m)
    decreases m
  {
    hide Sweep, Aligned, RoundUp;
    if m > 0 {
      PassesArePaged(secs, a, m - 1);
      SweepKeepsOffsets(Passes(secs, m - 1, a, true), secs, m - 1, 0, a, true);
    }
  }

  /** In a layout with page-aligned parts that fits, no page holds bytes of code
      and bytes of a section that is not code, nor bytes of a section that may be
      written beside read-only ones. */
  lemma PartsShareNoPage(secs: seq<Sec>, a: Arch, j: nat, k: nat, x: nat, y: nat)
    requires a.ronx && Layout(secs, a, true).size < LIMIT && j < |secs| && k < |secs| && secs[j].alloc && secs[k].alloc
    requires !IsSmall(secs[j], a)
    requires (secs[j].exec && !secs[k].exec) || (!secs[j].write && !secs[k].exec && secs[k].write)
    ensures var l := Layout(secs, a, false);
            && l.off[j].Some? && l.off[k].Some?
            && (l.off[j].value <= x < l.off[j].value + secs[j].size && l.off[k].value <= y < l.off[k].value + secs[k].size ==>
                  x / PAGE < y / PAGE)
  {
    hide Good, Passes, Aligned;
    var l := Layout(secs, a, false);
    PassesSame(secs, a, 4);
    PassesArePaged(secs, a, 4);
    LayoutIsGoodIff(secs, a);
    GoodIsDivided(l, secs, a, j);
    GoodIsDivided(l, secs, a, k);
    PageAligned(l.text);
    PageAligned(l.ro);
    if secs[j].exec && !secs[k].exec {
      BelowAndAbove(l.text, x, y);
    } else {
      BelowAndAbove(l.ro, x, y);
    }
  }

  lemma BelowAndAbove(edge: nat, x: nat, y: nat)
    requires edge % PAGE == 0
    ensures x < edge <= y ==> x / PAGE < y / PAGE
  {
  }

  // ----- the 32-bit layout is good exactly when the sections fit -----

  lemma PutIfSame(l: Lay, secs: seq<Sec>, m: nat, i: nat, a: Arch)
    requires |l.off| == |secs| && i < |secs| && PutIf(l, secs, m, i, a, true).size < LIMIT
    ensures PutIf(l, secs, m, i, a, false) == PutIf(l, secs, m, i, a, true)
  {
  }

  lemma PutIfGrows(l: Lay, secs: seq<Sec>, m: nat, i: nat, a: Arch)
    requires |l.off| == |secs| && i < |secs|
    ensures l.size <= PutIf(l, secs, m, i, a, true).size
  {
  }

  lemma {:induction false} SweepSame(l: Lay, secs: seq<Sec>, m: nat, i: nat, a: Arch)
    requires |l.off| == |secs| && i <= |secs|
    ensures l.size <= Sweep(l, secs, m, i, a, true).size
    ensures Sweep(l, secs, m, i, a, true).size < LIMIT ==>
      Sweep(l, secs, m, i, a, false) == Sweep(l, secs, m, i, a, true)
    decreases |secs| - i
  {
    hide PutIf;
    if i < |secs| {
      var wide := PutIf(l, secs, m, i, a, true);
      PutIfGrows(l, secs, m, i, a);
      SweepSame(wide, secs, m, i + 1, a);
      if Sweep(l, secs, m, i, a, true).size < LIMIT {
        PutIfSame(l, secs, m, i, a);
      }
    }
  }

  lemma CloseSame(l: Lay, m: nat, a: Arch)
    ensures l.size <= Close(l, m, a, true).size
    ensures Close(l, m, a, true).size < LIMIT ==> Close(l, m, a, false) == Close(l, m, a, true)
  {
    hide RoundUp, Aligned;
  }

  lemma {:induction false} PassesSame(secs: seq<Sec>, a: Arch, m: nat)
    requires Passes(secs, m, a, true).size < LIMIT
    ensures Passes(secs, m, a, false) == Passes(secs, m, a, true)
    ensures m > 0 ==> Passes(secs, m - 1, a, true).size < LIMIT
    decreases m
  {
    hide Sweep, Close;
    if m > 0 {
      var l := Passes(secs, m - 1, a, true);
      SweepSame(l, secs, m - 1, 0, a);
      CloseSame(Sweep(l, secs, m - 1, 0, a, true), m - 1, a);
      PassesSame(secs, a, m - 1);
    }
  }

  /** A placed section that ends beyond 32 bits, or that ends above the start of
      one that comes after it. Later steps do not mend this. */
  predicate Broken(l: Lay, secs: seq<Sec>, a: Arch)
    requires |l.off| == |secs|
  {
    || (exists k :: 0 <= k < |secs| && l.off[k].Some? && l.off[k].value + secs[k].size >= LIMIT)
    || (exists j, k :: 0 <= j < |secs| && 0 <= k < |secs| && l.off[j].Some? && l.off[k].Some?
                       && Before(secs, a, j, k) && l.off[j].value + secs[j].size > l.off[k].value)
  }

  /** The offsets of `l` are still those of `r`. */
  predicate Keeps(l: Lay, r: Lay) {
    |l.off| == |r.off| && forall k :: 0 <= k < |l.off| && l.off[k].Some? ==> r.off[k] == l.off[k]
  }

  lemma {:induction false} SweepKeepsOffsets(l: Lay, secs: seq<Sec>, m: nat, i: nat, a: Arch, wide: bool)
    requires |l.off| == |secs| && i <= |secs|
    ensures Keeps(l, Sweep(l, secs, m, i, a, wide))
    ensures var r := Sweep(l, secs, m, i, a, wide); r.text == l.text && r.ro == l.ro
    decreases |secs| - i
  {
    if i < |secs| { SweepKeepsOffsets(PutIf(l, secs, m, i, a, wide), secs, m, i + 1, a, wide); }
  }

  lemma BrokenSticks(l: Lay, r: Lay, secs: seq<Sec>, a: Arch)
    requires |l.off| == |secs| && Keeps(l, r) && Broken(l, secs, a)
    ensures Broken(r, secs, a)
  {
    hide Before;
  }

  lemma BrokenIsNotGood(l: Lay, secs: seq<Sec>, a: Arch)
    requires |l.off| == |secs| && l.size < LIMIT && Broken(l, secs, a)
    ensures !Good(l, secs, a)
  {
    hide Before, BoundsOk, Done;
  }

  /** The running size comes from a section that has been placed. */
  predicate Topped(l: Lay, secs: seq<Sec>)
    requires |l.off| == |secs|
  {
    l.size > 0 ==> exists k :: 0 <= k < |secs| && l.off[k].Some? && l.off[k].value + secs[k].size > 0
  }

  /** The step at which the size leaves 32 bits. */
  lemma PutIfBreaks(l: Lay, secs: seq<Sec>, m: nat, i: nat, a: Arch)
    requires m < 4 && i < |secs| && Inv(l, secs, a, m, i) && Topped(l, secs)
    requires l.size < LIMIT <= PutIf(l, secs, m, i, a, true).size
    ensures Broken(PutIf(l, secs, m, i, a, false), secs, a)
  {
    hide Aligned, FitsOk, OrderOk, BoundsOk;
    var o := RoundUp(l.size, secs[i].order);
    var r := PutIf(l, secs, m, i, a, false);
    PassOfIsFirst(secs[i], m, a);
    assert r.off == l.off[i := Some(o % LIMIT)];
    if o < LIMIT {
      assert r.off[i].value + secs[i].size >= LIMIT;
    } else {
      RoundUpZero(secs[i].order);
      RoundUpWraps(l.size, secs[i].order);
      var j :| 0 <= j < |secs| && l.off[j].Some? && l.off[j].value + secs[j].size > 0;
      assert r.off[j] == l.off[j] && r.off[i] == Some(0);
      assert Before(secs, a, j, i);
    }
  }

  lemma RoundUpZero(order: nat)
    ensures RoundUp(0, order) == 0
  {
    AlignedZero(order);
  }

  lemma LimitAligned(order: nat)
    requires order <= 32
    ensures Aligned(LIMIT, order) && Pow2(32) == LIMIT
  {
    PageSize();
    Pow2Add(12, 12);
    Pow2Add(24, 8);
    assert Pow2(8) == 256;
    AlignedPow2(order, 32);
  }

  /** Rounding a 32-bit size up to or beyond 32 bits truncates to 0. */
  lemma RoundUpWraps(x: nat, order: nat)
    requires x < LIMIT <= RoundUp(x, order)
    ensures RoundUp(x, order) % LIMIT == 0
  {
    hide Aligned, RoundUp, Pow2, LowBits;
    var r := RoundUp(x, order);
    if order <= 32 {
      LimitAligned(order);
      if r > LIMIT {
        AlignedApart(LIMIT, r, order);
      }
    } else {
      AlignedToSmaller(r, 32, order);
      MultipleOfLimit(r);
    }
  }

  lemma MultipleOfLimit(n: nat)
    requires Aligned(n, 32)
    ensures n % LIMIT == 0
  {
    hide Aligned, Pow2;
    LimitAligned(32);
    var q := AlignedQuotient(n, 32);
    assert n == q * LIMIT;
  }

  lemma PutIfTopped(l: Lay, secs: seq<Sec>, m: nat, i: nat, a: Arch)
    requires |l.off| == |secs| && i < |secs| && Topped(l, secs)
    ensures Topped(PutIf(l, secs, m, i, a, true), secs)
  {
    hide Aligned, RoundUp, InPass;
    var r := PutIf(l, secs, m, i, a, true);
    if r != l && r.size > 0 {
      assert r.off[i].Some? && r.off[i].value + secs[i].size == r.size;
    }
  }

  lemma {:induction false} SweepBreaks(l: Lay, secs: seq<Sec>, m: nat, i: nat, a: Arch)
    requires m < 4 && i <= |secs| && Inv(l, secs, a, m, i) && Topped(l, secs) && l.size < LIMIT
    ensures var r := Sweep(l, secs, m, i, a, true);
            if r.size < LIMIT then Topped(r, secs) else Broken(Sweep(l, secs, m, i, a, false), secs, a)
    decreases |secs| - i
  {
    hide FitsOk, OrderOk, BoundsOk, Done, PutIf, Topped, Broken;
    if i < |secs| {
      var wide, narrow := PutIf(l, secs, m, i, a, true), PutIf(l, secs, m, i, a, false);
      PutKeepsInv(l, secs, a, m, i);
      PutIfTopped(l, secs, m, i, a);
      if wide.size < LIMIT {
        PutIfSame(l, secs, m, i, a);
        SweepBreaks(wide, secs, m, i + 1, a);
      } else {
        SweepSame(wide, secs, m, i + 1, a);
        PutIfBreaks(l, secs, m, i, a);
        SweepKeepsOffsets(narrow, secs, m, i + 1, a, false);
        BrokenSticks(narrow, Sweep(narrow, secs, m, i + 1, a, false), secs, a);
      }
    }
  }

  /** Section `k` is placed by a pass before `m` and ends above `at`. */
  predicate Sticks(l: Lay, secs: seq<Sec>, a: Arch, m: nat, at: nat, k: nat)
    requires |l.off| == |secs| && k < |secs|
  {
    l.off[k].Some? && PassOf(secs[k], a) < m && l.off[k].value + secs[k].size > at
  }

  /** What is beyond repair after `m` passes. */
  predicate Bad(l: Lay, secs: seq<Sec>, a: Arch, m: nat)
    requires |l.off| == |secs|
  {
    || Broken(l, secs, a)
    || (m > 0 && exists k :: 0 <= k < |secs| && Sticks(l, secs, a, 1, l.text, k))
    || (m > 1 && exists k :: 0 <= k < |secs| && Sticks(l, secs, a, 2, l.ro, k))
    || (m > 3 && exists k :: 0 <= k < |secs| && Sticks(l, secs, a, 4, l.size, k))
  }

  lemma BadIsNotGood(l: Lay, secs: seq<Sec>, a: Arch)
    requires |l.off| == |secs| && l.size < LIMIT && Bad(l, secs, a, 4)
    ensures !Good(l, secs, a)
  {
    hide Broken, OrderOk, Done, PassOf, Aligned;
    if Broken(l, secs, a) {
      BrokenIsNotGood(l, secs, a);
    }
  }

  lemma BadSticks(l: Lay, secs: seq<Sec>, a: Arch, m: nat)
    requires m < 4 && |l.off| == |secs| && Bad(l, secs, a, m)
    ensures Bad(Pass(l, secs, m, a, false), secs, a, m + 1)
  {
    hide Broken, Sweep, PassOf;
    var s := Sweep(l, secs, m, 0, a, false);
    var r := Pass(l, secs, m, a, false);
    SweepKeepsOffsets(l, secs, m, 0, a, false);
    if Broken(l, secs, a) {
      BrokenSticks(l, r, secs, a);
    } else if m > 0 && exists k :: 0 <= k < |secs| && Sticks(l, secs, a, 1, l.text, k) {
      var k :| 0 <= k < |secs| && Sticks(l, secs, a, 1, l.text, k);
      assert Sticks(r, secs, a, 1, r.text, k);
    } else {
      var k :| 0 <= k < |secs| && Sticks(l, secs, a, 2, l.ro, k);
      assert Sticks(r, secs, a, 2, r.ro, k);
    }
  }

  /** The end of a pass at which the size leaves 32 bits. */
  lemma CloseBreaks(l: Lay, secs: seq<Sec>, a: Arch, m: nat)
    requires m < 4 && Inv(l, secs, a, m, |secs|) && Topped(l, secs)
    requires l.size < LIMIT <= Close(l, m, a, true).size
    ensures Bad(Close(l, m, a, false), secs, a, m + 1)
  {
    hide FitsOk, OrderOk, BoundsOk, Broken, Aligned, RoundUp, PassOf;
    RoundUpZero(PAGE_SHIFT);
    RoundUpWraps(l.size, PAGE_SHIFT);
    var r := Close(l, m, a, false);
    var k :| 0 <= k < |secs| && l.off[k].Some? && l.off[k].value + secs[k].size > 0;
    assert Done(secs[k], k, a, m, |secs|);
    assert Sticks(r, secs, a, m + 1, 0, k);
  }

  lemma CloseTopped(l: Lay, secs: seq<Sec>, a: Arch, m: nat)
    requires |l.off| == |secs| && Topped(l, secs)
    ensures Topped(Close(l, m, a, true), secs)
  {
    hide RoundUp;
    RoundUpZero(PAGE_SHIFT);
  }

  /** One pass of the two layouts that have agreed so far. */
  lemma PassBreaks(l: Lay, secs: seq<Sec>, a: Arch, m: nat)
    requires m < 4 && Inv(l, secs, a, m, 0) && Topped(l, secs) && l.size < LIMIT
    ensures if Pass(l, secs, m, a, true).size < LIMIT then Topped(Pass(l, secs, m, a, true), secs)
            else Bad(Pass(l, secs, m, a, false), secs, a, m + 1)
  {
    hide FitsOk, OrderOk, BoundsOk, Done, Topped, Broken, Sweep, Close;
    SweepBreaks(l, secs, m, 0, a);
    SweepSame(l, secs, m, 0, a);
    SweepKeepsInv(l, secs, a, m, 0);
    var s := Sweep(l, secs, m, 0, a, true);
    if s.size < LIMIT {
      CloseTopped(s, secs, a, m);
      if Close(s, m, a, true).size >= LIMIT {
        CloseBreaks(s, secs, a, m);
      }
    } else {
      CloseSame(s, m, a);
      var n := Sweep(l, secs, m, 0, a, false);
      BrokenSticks(n, Close(n, m, a, false), secs, a);
    }
  }

  lemma {:induction false} PassesBreak(secs: seq<Sec>, a: Arch, m: nat)
    requires m <= 4
    ensures if Passes(secs, m, a, true).size < LIMIT then Topped(Passes(secs, m, a, true), secs)
            else Bad(Passes(secs, m, a, false), secs, a, m)
    decreases m
  {
    hide Inv, Topped, Bad, Pass;
    if m == 0 {
      EmptyTopped(secs);
    } else {
      var l := Passes(secs, m - 1, a, true);
      PassesBreak(secs, a, m - 1);
      PassesAreGood(secs, a, m - 1);
      if l.size < LIMIT {
        PassesSame(secs, a, m - 1);
        PassBreaks(l, secs, a, m - 1);
      } else {
        PassGrows(l, secs, m - 1, a);
        BadSticks(Passes(secs, m - 1, a, false), secs, a, m - 1);
      }
    }
  }

  lemma EmptyTopped(secs: seq<Sec>)
    ensures Topped(Empty(|secs|), secs)
  {
  }

  lemma PassGrows(l: Lay, secs: seq<Sec>, m: nat, a: Arch)
    requires |l.off| == |secs|
    ensures l.size <= Pass(l, secs, m, a, true).size
  {
    hide Sweep, Close;
    SweepSame(l, secs, m, 0, a);
    CloseSame(Sweep(l, secs, m, 0, a, true), m, a);
  }

  lemma {:induction false} NarrowStays(secs: seq<Sec>, a: Arch, m: nat)
    ensures Passes(secs, m, a, false).size < LIMIT
    decreases m
  {
    hide Sweep;
    if m > 0 {
      NarrowStays(secs, a, m - 1);
      NarrowSweep(Passes(secs, m - 1, a, false), secs, m - 1, 0, a);
    }
  }

  lemma {:induction false} NarrowSweep(l: Lay, secs: seq<Sec>, m: nat, i: nat, a: Arch)
    requires |l.off| == |secs| && i <= |secs| && l.size < LIMIT
    ensures Sweep(l, secs, m, i, a, false).size < LIMIT
    decreases |secs| - i
  {
    if i < |secs| { NarrowSweep(PutIf(l, secs, m, i, a, false), secs, m, i + 1, a); }
  }

  /** The layout the loader computes is good if and only if the sections, laid
      out without truncation, fit in 32 bits. */
  lemma LayoutIsGoodIff(secs: seq<Sec>, a: Arch)
    ensures Good(Layout(secs, a, false), secs, a) <==> Layout(secs, a, true).size < LIMIT
  {
    hide Inv, Bad, Passes, Topped;
    PassesBreak(secs, a, 4);
    PassesAreGood(secs, a, 4);
    NarrowStays(secs, a, 4);
    if Layout(secs, a, true).size < LIMIT {
      PassesSame(secs, a, 4);
    } else {
      BadIsNotGood(Layout(secs, a, false), secs, a);
    }
  }

  /** Zero-initialised data of 2^32 bytes. */
  const HUGE := Sec(true, false, true, false, true, 0, LIMIT, [])

  /** Such a section does not lie below `core_size`. */
  lemma HugeSectionWraps(a: Arch)
    ensures !Good(Layout([HUGE], a, false), [HUGE], a)
  {
    hide Passes;
    PassesAreGood([HUGE], a, 4);
    assert [HUGE][0] == HUGE && Done(HUGE, 0, a, 4, 0);
    LayoutIsGoodIff([HUGE], a);
  }

  /** What a good layout means for two sections: they do not overlap. */
  lemma GoodIsDisjoint(l: Lay, secs: seq<Sec>, a: Arch, j: nat, k: nat)
    requires Good(l, secs, a) && j < |secs| && k < |secs| && j != k && secs[j].alloc && secs[k].alloc
    ensures l.off[j].Some? && l.off[k].Some?
    ensures || l.off[j].value + secs[j].size <= l.off[k].value
            || l.off[k].value + secs[k].size <= l.off[j].value
  {
    hide FitsOk, BoundsOk;
    assert Done(secs[j], j, a, 4, 0) && Done(secs[k], k, a, 4, 0);
    assert Before(secs, a, j, k) || Before(secs, a, k, j);
  }

  /** Code lies below `core_text_size`, what cannot be written below
      `core_ro_size`; everything writable that is not code lies above. */
  lemma GoodIsDivided(l: Lay, secs: seq<Sec>, a: Arch, k: nat)
    requires Good(l, secs, a) && k < |secs| && secs[k].alloc
    ensures l.off[k].Some? && l.text <= l.ro <= l.size && l.off[k].value + secs[k].size <= l.size
    ensures secs[k].exec && !IsSmall(secs[k], a) ==> l.off[k].value + secs[k].size <= l.text
    ensures !secs[k].write && !IsSmall(secs[k], a) ==> l.off[k].value + secs[k].size <= l.ro
    ensures !secs[k].exec ==> l.text <= l.off[k].value
    ensures !secs[k].exec && secs[k].write ==> l.ro <= l.off[k].value
  {
    hide OrderOk, Aligned;
    assert Done(secs[k], k, a, 4, 0);
  }

  // ----- the symbol and string tables behind the sections -----

  /** The offsets of the symbol table, of the room for its core symbols, of the
      string table and of the room for its strings, and the final size. */
  datatype Tail = Tail(sym: nat, symRoom: nat, str: nat, strRoom: nat, size: nat)

  /** `layout_symtab`: `symBytes` and `strBytes` are the two rooms. */
  function TailOf(size: nat, sym: Sec, symBytes: nat, str: Sec, strBytes: nat, wide: bool): Tail {
    var o0 := Wrap(RoundUp(size, sym.order), wide);
    var s0 := Wrap(o0 + sym.size, wide);
    var o1 := Wrap(RoundUp(s0, sym.order), wide);
    var s1 := Wrap(o1 + symBytes, wide);
    var o2 := Wrap(RoundUp(s1, str.order), wide);
    var s2 := Wrap(o2 + str.size, wide);
    Tail(o0, o1, o2, s2, Wrap(s2 + strBytes, wide))
  }

  /** The four lie behind one another and end at the final size. */
  predicate Chained(t: Tail, size: nat, sym: Sec, symBytes: nat, str: Sec, strBytes: nat) {
    && size <= t.sym && t.sym + sym.size <= t.symRoom && t.symRoom + symBytes <= t.str
    && t.str + str.size <= t.strRoom && t.strRoom + strBytes <= t.size
  }

  lemma WrapStep(size: nat, order: nat, n: nat)
    requires size < LIMIT
    ensures var w := RoundUp(size, order); var o := w % LIMIT;
            && size <= w && (w + n < LIMIT ==> o == w && (o + n) % LIMIT == w + n)
            && (w + n >= LIMIT ==> o < size || o + n >= LIMIT)
  {
    RoundUpZero(order);
    if RoundUp(size, order) >= LIMIT { RoundUpWraps(size, order); }
  }

  /** The tables are chained behind the sections if and only if they fit in
      32 bits. */
  lemma TailIsChainedIff(size: nat, sym: Sec, symBytes: nat, str: Sec, strBytes: nat)
    requires size < LIMIT
    ensures Chained(TailOf(size, sym, symBytes, str, strBytes, false), size, sym, symBytes, str, strBytes)
       <==> TailOf(size, sym, symBytes, str, strBytes, true).size < LIMIT
  {
    hide Aligned, RoundUp;
    var n := TailOf(size, sym, symBytes, str, strBytes, false);
    var w := TailOf(size, sym, symBytes, str, strBytes, true);
    WrapStep(size, sym.order, sym.size);
    var s0 := w.sym + sym.size;
    if s0 < LIMIT {
      WrapStep(s0, sym.order, symBytes);
      var s1 := w.symRoom + symBytes;
      if s1 < LIMIT {
        WrapStep(s1, str.order, str.size);
      }
    }
  }

  /** Tables that fit are aligned, each at the first aligned place behind the one
      before, and the last room ends with the module. */
  lemma TailIsAligned(size: nat, sym: Sec, symBytes: nat, str: Sec, strBytes: nat)
    requires TailOf(size, sym, symBytes, str, strBytes, true).size < LIMIT
    ensures var t := TailOf(size, sym, symBytes, str, strBytes, false);
            && Aligned(t.sym, sym.order) && t.sym < size + Pow2(sym.order)
            && Aligned(t.symRoom, sym.order) && t.symRoom < t.sym + sym.size + Pow2(sym.order)
            && Aligned(t.str, str.order) && t.str < t.symRoom + symBytes + Pow2(str.order)
            && t.strRoom == t.str + str.size && t.size == t.strRoom + strBytes
  {
    hide Aligned, RoundUp, Pow2, Wrap;
    var n := TailOf(size, sym, symBytes, str, strBytes, false);
    var w := TailOf(size, sym, symBytes, str, strBytes, true);
    WideStep(size, sym.order, sym.size);
    WideStep(w.sym + sym.size, sym.order, symBytes);
    WideStep(w.symRoom + symBytes, str.order, str.size);
    WideStep(w.strRoom, 0, strBytes);
  }

  /** One step of the tail without truncation, and with it where it fits. */
  lemma WideStep(size: nat, order: nat, n: nat)
    ensures var o := RoundUp(size, order);
            && Aligned(o, order) && size <= o < size + Pow2(order)
            && Wrap(o, true) == o && Wrap(o + n, true) == o + n && Wrap(size + n, true) == size + n
            && (o + n < LIMIT ==> Wrap(o, false) == o && Wrap(o + n, false) == o + n)
            && (size + n < LIMIT ==> Wrap(size + n, false) == size + n)
  {
    hide Aligned, RoundUp, Pow2;
  }

  /** The headers after `layout_symtab`: the tables are allocatable too. */
  function WithTables(secs: seq<Sec>, sym: nat, str: nat): (r: seq<Sec>)
    requires sym < |secs| && str < |secs|
    ensures |r| == |secs|
  {
    var s := secs[sym := secs[sym].(alloc := true)];
    s[str := s[str].(alloc := true)]
  }

  /** What the copy needs: the allocatable sections have offsets, end below the
      size and do not overlap. */
  predicate Ready(secs: seq<Sec>, off: seq<Option<nat>>, size: nat) {
    && |off| == |secs|
    && (forall k :: 0 <= k < |secs| && secs[k].alloc ==> off[k].Some? && off[k].value + secs[k].size <= size)
    && (forall j, k :: 0 <= j < |secs| && 0 <= k < |secs| && j != k && secs[j].alloc && secs[k].alloc ==>
          off[j].value + secs[j].size <= off[k].value || off[k].value + secs[k].size <= off[j].value)
  }

  /** A layout and tables that fit are ready to be copied. */
  lemma LayoutIsReady(l: Lay, secs: seq<Sec>, a: Arch, sym: nat, str: nat, symBytes: nat, strBytes: nat, t: Tail)
    requires Good(l, secs, a) && sym < |secs| && str < |secs|
    requires Chained(t, l.size, secs[sym], symBytes, secs[str], strBytes)
    ensures Ready(WithTables(secs, sym, str), l.off[sym := Some(t.sym)][str := Some(t.str)], t.size)
  {
    hide FitsOk, OrderOk, BoundsOk, Done;
    forall j, k | 0 <= j < |secs| && 0 <= k < |secs| && j != k && secs[j].alloc && secs[k].alloc
      ensures l.off[j].Some? && l.off[k].Some?
      ensures || l.off[j].value + secs[j].size <= l.off[k].value
              || l.off[k].value + secs[k].size <= l.off[j].value
    {
      GoodIsDisjoint(l, secs, a, j, k);
    }
    forall k | 0 <= k < |secs| && secs[k].alloc
      ensures l.off[k].Some? && l.off[k].value + secs[k].size <= l.size
    {
      GoodIsDivided(l, secs, a, k);
    }
  }

  // ----- the copy -----

  /** The file contents of a section are those its header promises. */
  predicate HasData(secs: seq<Sec>) {
    forall k :: 0 <= k < |secs| && secs[k].alloc && !secs[k].nobits ==> |secs[k].data| == secs[k].size
  }

  predicate Covers(s: Sec, off: Option<nat>, x: nat) {
    s.alloc && !s.nobits && off.Some? && off.value <= x < off.value + s.size
  }

  /** The first `n` sections have been copied into a cleared image. */
  predicate Loaded(img: seq<Byte>, secs: seq<Sec>, off: seq<Option<nat>>, size: nat, n: nat)
    requires Ready(secs, off, size) && size <= |img| && n <= |secs|
  {
    && (forall k :: 0 <= k < n && secs[k].alloc && !secs[k].nobits ==>
          img[off[k].value..off[k].value + secs[k].size] == secs[k].data)
    && (forall x :: 0 <= x < size && (forall k :: 0 <= k < n ==> !Covers(secs[k], off[k], x)) ==> img[x] == 0)
  }

  /** In a loaded image a section without file contents is all zero. */
  lemma NobitsIsZero(img: seq<Byte>, secs: seq<Sec>, off: seq<Option<nat>>, size: nat, k: nat, x: nat)
    requires Ready(secs, off, size) && size <= |img| && Loaded(img, secs, off, size, |secs|)
    requires k < |secs| && secs[k].alloc && secs[k].nobits && off[k].value <= x < off[k].value + secs[k].size
    ensures img[x] == 0
  {
    forall j | 0 <= j < |secs| ensures !Covers(secs[j], off[j], x) {
      assert j != k ==> secs[j].alloc ==> off[j].Some?;
    }
  }

  method Clear(pages: array<Byte>, n: nat)
    requires n <= pages.Length
    modifies pages
    ensures forall x :: 0 <= x < n ==> pages[x] == 0
    ensures pages[n..] == old(pages[n..])
  {
    var i := 0;
    while i < n
      invariant 0 <= i <= n
      invariant forall x :: 0 <= x < i ==> pages[x] == 0
      invariant pages[n..] == old(pages[n..])
    {
      pages[i] := 0;
      i := i + 1;
    }
  }

  lemma CopyLoads(img: seq<Byte>, img': seq<Byte>, secs: seq<Sec>, off: seq<Option<nat>>, size: nat, n: nat)
    requires Ready(secs, off, size) && size <= |img| == |img'| && n < |secs|
    requires Loaded(img, secs, off, size, n) && secs[n].alloc && !secs[n].nobits && |secs[n].data| == secs[n].size
    requires var at := off[n].value; img' == img[..at] + secs[n].data + img[at + secs[n].size..]
    ensures Loaded(img', secs, off, size, n + 1)
  {
    var at := off[n].value;
    forall k | 0 <= k < n + 1 && secs[k].alloc && !secs[k].nobits
      ensures img'[off[k].value..off[k].value + secs[k].size] == secs[k].data
    {
      if k < n {
        assert img'[off[k].value..off[k].value + secs[k].size] == img[off[k].value..off[k].value + secs[k].size];
      }
    }
    forall x | 0 <= x < size && (forall k :: 0 <= k < n + 1 ==> !Covers(secs[k], off[k], x)) ensures img'[x] == 0 {
      assert !Covers(secs[n], off[n], x);
      assert img'[x] == img[x];
    }
  }

  /** The whole plan: the layout without truncation, tables included, fits. */
  predicate ModuleFits(secs: seq<Sec>, a: Arch, sym: nat, symBytes: nat, str: nat, strBytes: nat)
    requires sym < |secs| && str < |secs|
  {
    && Layout(secs, a, true).size < LIMIT
    && TailOf(Layout(secs, a, true).size, secs[sym], symBytes, secs[str], strBytes, true).size < LIMIT
  }

  /** A module that fits is laid out ready to be copied. */
  lemma FittingModuleIsReady(secs: seq<Sec>, a: Arch, sym: nat, symBytes: nat, str: nat, strBytes: nat)
    requires sym < |secs| && str < |secs| && ModuleFits(secs, a, sym, symBytes, str, strBytes)
    ensures var l := Layout(secs, a, false);
            var t := TailOf(l.size, secs[sym], symBytes, secs[str], strBytes, false);
            Ready(WithTables(secs, sym, str), l.off[sym := Some(t.sym)][str := Some(t.str)], t.size)
  {
    hide Good, TailOf, Passes, Chained;
    var l := Layout(secs, a, false);
    LayoutIsGoodIff(secs, a);
    PassesSame(secs, a, 4);
    TailIsChainedIff(l.size, secs[sym], symBytes, secs[str], strBytes);
    LayoutIsReady(l, secs, a, sym, str, symBytes, strBytes,
                  TailOf(l.size, secs[sym], symBytes, secs[str], strBytes, false));
  }

  /** On page-aligned pages, a section whose alignment is at most a page is
      aligned in memory as well. */
  lemma AddressIsAligned(start: nat, off: nat, order: nat)
    requires Aligned(start, PAGE_SHIFT) && Aligned(off, order) && order <= PAGE_SHIFT
    ensures Aligned(start + off, order)
  {
    AlignedToSmaller(start, order, PAGE_SHIFT);
    AlignedAdd(start, off, order);
  }

  // ----- the loader in place -----

  class ModuleWrap {
    var secs: seq<Sec>
    var entsize: seq<Option<nat>>
    var addr: seq<Option<nat>>
    var coreSize: nat
    var coreTextSize: nat
    var coreRoSize: nat

    ghost function Value(): Lay
      reads this
    {
      Lay(entsize, coreSize, coreTextSize, coreRoSize)
    }

    constructor (secs: seq<Sec>)
      ensures this.secs == secs && Value() == Lay([], 0, 0, 0) && addr == seq(|secs|, i => None)
    {
      this.secs, entsize, addr := secs, [], seq(|secs|, i => None);
      coreSize, coreTextSize, coreRoSize := 0, 0, 0;
    }

    /** `get_offset`. */
    method GetOffset(order: nat, size: nat) returns (o: nat)
      modifies this`coreSize
      ensures o == Wrap(RoundUp(old(coreSize), order), false) && coreSize == Wrap(o + size, false)
    {
      o := RoundUp(coreSize, order) % LIMIT;
      coreSize := (o + size) % LIMIT;
    }

    /** One pass over the section headers. */
    method LayoutPass(m: nat, a: Arch)
      requires |entsize| == |secs|
      modifies this`entsize, this`coreSize
      ensures |entsize| == |secs| && Value() == Sweep(old(Value()), secs, m, 0, a, false)
    {
      hide RoundUp, InPass;
      var i := 0;
      while i < |secs|
        invariant 0 <= i <= |secs| && |entsize| == |secs|
        invariant Sweep(Value(), secs, m, i, a, false) == Sweep(old(Value()), secs, m, 0, a, false)
      {
        if InPass(secs[i], m, a) && entsize[i].None? {
          var o := GetOffset(secs[i].order, secs[i].size);
          entsize := entsize[i := Some(o)];
        }
        i := i + 1;
      }
    }

    /** `layout_sections`. */
    method LayoutSections(a: Arch)
      requires coreSize == 0 && coreTextSize == 0 && coreRoSize == 0
      modifies this`entsize, this`coreSize, this`coreTextSize, this`coreRoSize
      ensures Value() == Layout(secs, a, false)
      ensures Good(Value(), secs, a) <==> Layout(secs, a, true).size < LIMIT
    {
      hide Sweep, Good;
      LayoutIsGoodIff(secs, a);
      entsize := seq(|secs|, i => None);
      var m := 0;
      while m < 4
        invariant 0 <= m <= 4 && |entsize| == |secs|
        invariant Value() == Passes(secs, m, a, false)
      {
        LayoutPass(m, a);
        if m != 2 {
          coreSize := DebugAlign(coreSize, a, false);
        }
        if m == 0 {
          coreTextSize := coreSize;
        } else if m == 1 {
          coreRoSize := coreSize;
        }
        m := m + 1;
      }
    }

    /** `layout_symtab`; the rooms for the core symbols and their strings are
        counted beforehand. */
    method LayoutSymtab(sym: nat, str: nat, symBytes: nat, strBytes: nat) returns (symoffs: nat, stroffs: nat)
      requires |entsize| == |secs| && sym < |secs| && str < |secs|
      modifies this
      ensures secs == WithTables(old(secs), sym, str)
      ensures var t := TailOf(old(coreSize), old(secs[sym]), symBytes, old(secs[str]), strBytes, false);
              && entsize == old(entsize)[sym := Some(t.sym)][str := Some(t.str)]
              && coreSize == t.size && symoffs == t.symRoom && stroffs == t.strRoom
      ensures coreTextSize == old(coreTextSize) && coreRoSize == old(coreRoSize) && addr == old(addr)
    {
      hide RoundUp, Wrap;
      secs := secs[sym := secs[sym].(alloc := true)];
      var o := GetOffset(secs[sym].order, secs[sym].size);
      entsize := entsize[sym := Some(o)];
      symoffs := GetOffset(secs[sym].order, symBytes);
      secs := secs[str := secs[str].(alloc := true)];
      o := GetOffset(secs[str].order, secs[str].size);
      entsize := entsize[str := Some(o)];
      stroffs := coreSize;
      coreSize := Wrap(coreSize + strBytes, false);
    }

    /** `move_module`; `start` is the address of the pages, none if there are
        none left. */
    method MoveModule(start: Option<nat>, pages: array<Byte>) returns (rc: int)
      requires Ready(secs, entsize, coreSize) && HasData(secs) && |addr| == |secs|
      requires pages.Length == SizeToPage(coreSize) * PAGE
      modifies this`addr, pages
      ensures start.None? ==> rc == VMM_ENOMEM && pages[..] == old(pages[..]) && addr == old(addr)
      ensures start.Some? ==> rc == VMM_OK && Loaded(pages[..], secs, entsize, coreSize, |secs|)
      ensures start.Some? ==> pages[coreSize..] == old(pages[coreSize..])
      ensures start.Some? ==> |addr| == |secs| && forall k :: 0 <= k < |secs| ==>
        addr[k] == if secs[k].alloc then Some(start.value + entsize[k].value) else old(addr)[k]
    {
      hide Loaded, Ready, HasData;
      ReadyShape(secs, entsize, coreSize);
      if start.None? {
        return VMM_ENOMEM;
      }
      Clear(pages, coreSize);
      LoadedStart(pages[..], secs, entsize, coreSize);
      var i := 0;
      while i < |secs|
        invariant 0 <= i <= |secs| && |addr| == |secs|
        invariant Loaded(pages[..], secs, entsize, coreSize, i)
        invariant pages[coreSize..] == old(pages[coreSize..])
        invariant forall k :: 0 <= k < |secs| ==>
          addr[k] == if k < i && secs[k].alloc then Some(start.value + entsize[k].value) else old(addr)[k]
      {
        MoveSection(i, pages);
        if secs[i].alloc {
          addr := addr[i := Some(start.value + entsize[i].value)];
        }
        i := i + 1;
      }
      rc := VMM_OK;
    }

    /** The contents of section `i` go to their place. */
    method MoveSection(i: nat, pages: array<Byte>)
      requires Ready(secs, entsize, coreSize) && HasData(secs) && i < |secs| && coreSize <= pages.Length
      requires Loaded(pages[..], secs, entsize, coreSize, i)
      modifies pages
      ensures Loaded(pages[..], secs, entsize, coreSize, i + 1)
      ensures pages[coreSize..] == old(pages[coreSize..])
    {
      hide Loaded;
      ghost var before := pages[..];
      if secs[i].alloc && !secs[i].nobits {
        CopyBytes(pages, entsize[i].value, secs[i].data);
        CopyLoads(before, pages[..], secs, entsize, coreSize, i);
        TailUntouched(before, pages[..], entsize[i].value, secs[i].data, coreSize);
      } else {
        SkipLoads(pages[..], secs, entsize, coreSize, i);
      }
    }
  }

  lemma ReadyShape(secs: seq<Sec>, off: seq<Option<nat>>, size: nat)
    requires Ready(secs, off, size)
    ensures |off| == |secs| && forall k :: 0 <= k < |secs| && secs[k].alloc ==> off[k].Some?
  {
  }

  lemma LoadedStart(img: seq<Byte>, secs: seq<Sec>, off: seq<Option<nat>>, size: nat)
    requires Ready(secs, off, size) && size <= |img| && forall x :: 0 <= x < size ==> img[x] == 0
    ensures Loaded(img, secs, off, size, 0)
  {
  }

  lemma SkipLoads(img: seq<Byte>, secs: seq<Sec>, off: seq<Option<nat>>, size: nat, n: nat)
    requires Ready(secs, off, size) && size <= |img| && n < |secs| && Loaded(img, secs, off, size, n)
    requires !secs[n].alloc || secs[n].nobits
    ensures Loaded(img, secs, off, size, n + 1)
  {
    forall x | 0 <= x < size && (forall k :: 0 <= k < n + 1 ==> !Covers(secs[k], off[k], x)) ensures img[x] == 0 {
      assert forall k :: 0 <= k < n ==> !Covers(secs[k], off[k], x);
    }
  }

  lemma TailUntouched(a: seq<Byte>, b: seq<Byte>, at: nat, data: seq<Byte>, size: nat)
    requires at + |data| <= size <= |a| && b == a[..at] + data + a[at + |data|..]
    ensures b[size..] == a[size..]
  {
  }
}
