/** What every `host_memmap` and `host_memunmap` answers and changes, and the
    references that repeated maps of one range hold. */
module HostAspaceRefs {
  import opened Arith
  import opened Common
  import opened IntervalTree
  import opened MemHash
  import opened HostAspace

  /** The page that a physical or virtual address lies in. */
  function PageOf(a: nat, k: nat): nat { a - LowBits(a, k) }

  lemma PageOfAligned(a: nat, k: nat)
    ensures Aligned(PageOf(a, k), k) && (Aligned(a, k) ==> PageOf(a, k) == a)
  {
    LowBitsSplit(a, k);
  }

  // ----- mapping -----

  lemma HeldTranslates(s: Aspace, k: nat, i: nat, a: nat)
    requires Inv(s, k) && Holds(s.h, i, a)
    ensures var e := s.h.entry[i];
            && Pa2Va(s.h, a) == Some((e.va + (a - e.pa), e.sz - (a - e.pa), e.flags))
            && Xlat(s.h, a) == Some((e.va + (a - e.pa), e.flags))
            && (Aligned(a, k) ==> Aligned(e.va + (a - e.pa), k))
  {
    hide Bst, Lookup, UsedAreListed, ListedAreUsed, HashIsMapped, MappedIsHashed, Aligned;
    HoldsIsLookup(s.h, i, a);
  }

  /** Mapping an address whose page slot `i` holds: it returns exactly when the
      flags are those of the entry and the rounded size fits into it; then it
      returns the address where the page is mapped, with the offset, and raises
      the count of the slot by one. Nothing else changes. */
  lemma MapHeld(s: Aspace, k: nat, i: nat, pa: nat, size: nat, flags: nat, newVa: Option<nat>)
    requires Inv(s, k) && Holds(s.h, i, PageOf(pa, k))
    ensures var (r, s') := MapSpec(s, k, pa, size, flags, newVa);
            var e := s.h.entry[i];
            if flags == e.flags && PageOf(pa, k) + RoundUp(size, k) <= e.pa + e.sz then
              r == Some(e.va + (pa - e.pa)) && s' == s.(h := Hash(s.h.entry[i := e.(ref := e.ref + 1)], s.h.tree))
            else r == None && s' == s
  {
    hide Good, Inv, Add, LowBits, RoundUp, Aligned, Pow2, Span, Range, Pa2Va;
    var tpa, e := PageOf(pa, k), s.h.entry[i];
    var tva := e.va + (tpa - e.pa);
    InvIsGood(s, k);
    PageOfAligned(pa, k);
    HeldTranslates(s, k, i, tpa);
    PageOfAligned(tva, k);
    AddAgain(s.h, i, tpa, tva, RoundUp(size, k), flags);
  }

  lemma InvIsGood(s: Aspace, k: nat)
    requires Inv(s, k)
    ensures Good(s.h)
  {
  }

  /** Every slot is in use. */
  predicate Full(h: Hash) { forall j :: 0 <= j < |h.entry| ==> h.entry[j].ref > 0 }

  /** Mapping an address whose page no slot holds: it returns exactly when the
      pool hands out an aligned address, a slot is free and no used slot overlaps
      the range; then the range is mapped at that address, in the page table, in
      the pool and, with one reference, in the hash. */
  lemma MapUnheld(s: Aspace, k: nat, pa: nat, size: nat, flags: nat, newVa: Option<nat>) returns (i: nat)
    requires Inv(s, k) && forall j: nat :: !Holds(s.h, j, PageOf(pa, k))
    ensures var (r, s') := MapSpec(s, k, pa, size, flags, newVa);
            var tpa, sz := PageOf(pa, k), RoundUp(size, k);
            if newVa.Some? && Aligned(newVa.value, k) && !Full(s.h) && !Overlaps(s.h, tpa, sz) then
              && r == Some(newVa.value + (pa - tpa)) && i < |s.h.entry| && s.h.entry[i].ref == 0
              && s'.h.entry == s.h.entry[i := Entry(tpa, newVa.value, sz, flags, 1)]
              && s'.pt == s.pt + Span(newVa.value, tpa, sz, flags) && s'.vas == s.vas + Range(newVa.value, sz)
            else r == None && s' == s
  {
    hide Good, Inv, Add, LowBits, RoundUp, Aligned, Pow2, Span, Range, Pa2Va, Overlaps;
    var tpa, sz := PageOf(pa, k), RoundUp(size, k);
    InvIsGood(s, k);
    UnheldIsUnhashed(s.h, tpa);
    i := 0;
    if newVa.Some? {
      LowBitsSplit(newVa.value, k);
      i := AddNew(s.h, tpa, newVa.value, sz, flags);
    }
  }

  lemma UnheldIsUnhashed(h: Hash, a: nat)
    requires Good(h) && forall j: nat :: !Holds(h, j, a)
    ensures Pa2Va(h, a).None? && Xlat(h, a).None? && Refs(h, a) == 0
  {
    hide Bst, Lookup, UsedAreListed, ListedAreUsed;
    HoldsIsLookup(h, 0, a);
  }

  // ----- unmapping -----

  /** Every mapped address belongs to the slot that holds what it maps to, at the
      same offset. */
  lemma MappedHasSlot(s: Aspace, k: nat, va: nat) returns (i: nat)
    requires Inv(s, k) && va in s.pt
    ensures Holds(s.h, i, s.pt[va].0)
    ensures var e := s.h.entry[i]; e.va <= va < e.va + e.sz && va - e.va == s.pt[va].0 - e.pa && s.pt[va].1 == e.flags
  {
    hide Bst, Lookup, UsedAreListed, ListedAreUsed, HashIsMapped, PagesToPages;
    var pa := s.pt[va].0;
    assert Xlat(s.h, pa) == Some((va, s.pt[va].1));
    HoldsIsLookup(s.h, 0, pa);
    i := Lookup(s.h.tree, pa).value.val;
  }

  /** An unmap panics when the range runs over the end of its entry, and when it
      takes the last reference from the middle of an entry and no slot is free
      for what is left. */
  predicate Panics(h: Hash, i: nat, va: nat, sz: nat)
    requires i < |h.entry|
  {
    var e := h.entry[i];
    e.va + e.sz < va + sz || (e.ref == 1 && e.va < va && va + sz < e.va + e.sz && Full(h))
  }

  /** Unmapping an address that is not mapped fails and changes nothing. */
  lemma UnmapUnmapped(s: Aspace, k: nat, va: nat, size: nat)
    requires Inv(s, k) && PageOf(va, k) !in s.pt
    ensures UnmapSpec(s, k, va, size) == (Code(VMM_EFAIL), s)
  {
    hide Inv, Good, LowBits, RoundUp;
    InvIsGood(s, k);
  }

  /** Unmapping a page that slot `i` holds: with more than one reference the
      count of the slot drops by one and nothing else changes; the last reference
      unmaps exactly the range, in the page table, in the pool and in the hash,
      and every other answer stays. */
  lemma UnmapMapped(s: Aspace, k: nat, i: nat, va0: nat, size: nat, a: nat)
    requires Inv(s, k) && PageOf(va0, k) in s.pt && Holds(s.h, i, s.pt[PageOf(va0, k)].0)
    ensures var (r, s') := UnmapSpec(s, k, va0, size);
            var va, sz, e := PageOf(va0, k), RoundUp(size, k), s.h.entry[i];
            var pa := s.pt[va].0;
            && (r.Panic? <==> Panics(s.h, i, va, sz))
            && (!r.Panic? ==> r == Code(VMM_OK))
            && (!r.Panic? && e.ref > 1 ==> s' == s.(h := Hash(s.h.entry[i := e.(ref := e.ref - 1)], s.h.tree)))
            && (!r.Panic? && e.ref == 1 ==>
                  && s'.pt == s.pt - Range(va, sz) && s'.vas == s.vas - Range(va, sz)
                  && Xlat(s'.h, a) == (if pa <= a < pa + sz then None else Xlat(s.h, a))
                  && Refs(s'.h, a) == (if pa <= a < pa + sz then 0 else Refs(s.h, a)))
  {
    hide Bst, Inv, Lookup, UsedAreListed, ListedAreUsed, Split, LowBits, RoundUp, Aligned, Pow2, Range, Xlat, Refs;
    var va, sz, e := PageOf(va0, k), RoundUp(size, k), s.h.entry[i];
    var pa := s.pt[va].0;
    InvIsGood(s, k);
    var j := MappedHasSlot(s, k, va);
    SameSlot(s.h, i, j, pa);
    DelAnswers(s.h, i, pa, va, sz);
    if FitsIn(e, pa, va, sz) && e.ref == 1 {
      SplitXlat(s.h, ItemOf(s.h.entry, i), pa, va, sz, a);
      FullIsFirstFree(s.h);
      if !Split(s.h, ItemOf(s.h.entry, i), pa, va, sz).0.Panic? {
        SplitRefs(s.h, ItemOf(s.h.entry, i), pa, va, sz, a);
      }
    }
  }

  lemma SameSlot(h: Hash, i: nat, j: nat, a: nat)
    requires Good(h) && Holds(h, i, a) && Holds(h, j, a)
    ensures i == j
  {
    hide Bst, Lookup, UsedAreListed, ListedAreUsed;
    HoldsIsLookup(h, i, a);
    HoldsIsLookup(h, j, a);
  }

  lemma FullIsFirstFree(h: Hash)
    ensures Full(h) <==> FirstFree(h.entry, 0).None?
  {
  }

  // ----- mapping and unmapping undo each other -----

  /** A new range that is mapped and unmapped again: page table, pool and the
      physical-to-virtual function are as before. */
  lemma MapThenUnmapRestores(s: Aspace, k: nat, pa: nat, size: nat, flags: nat, newVa: Option<nat>, a: nat)
    requires Inv(s, k) && FreshOk(s, newVa, RoundUp(size, k))
    requires (forall j: nat :: !Holds(s.h, j, PageOf(pa, k))) && MapSpec(s, k, pa, size, flags, newVa).0.Some?
    ensures var (va, s1) := MapSpec(s, k, pa, size, flags, newVa);
            var (rc, s2) := UnmapSpec(s1, k, va.value, size);
            rc == Code(VMM_OK) && s2.pt == s.pt && s2.vas == s.vas && Xlat(s2.h, a) == Xlat(s.h, a)
  {
    hide Good, HashIsMapped, PagesToPages, MapSpec, UnmapSpec, LowBits, RoundUp, Aligned, Pow2, Xlat, Overlaps, Panics;
    var i := MapUnheld(s, k, pa, size, flags, newVa);
    var tpa, sz, v := PageOf(pa, k), RoundUp(size, k), newVa.value;
    var (va, s1) := MapSpec(s, k, pa, size, flags, newVa);
    MapKeepsInv(s, k, pa, size, flags, newVa);
    PageBack(pa, v, k);
    assert s1.pt[v] == (tpa, flags) && Holds(s1.h, i, tpa);
    UnmapMapped(s1, k, i, va.value, size, a);
    WholeNeverPanics(s1.h, i, v, sz);
    UnheldIsUnhashed(s.h, tpa);
    MapXlat(s, k, pa, size, flags, newVa, a);
    NewWasUnhashed(s, k, pa, size, flags, newVa, a);
    UndoSpan(s, v, tpa, sz, flags);
  }

  lemma WholeNeverPanics(h: Hash, i: nat, va: nat, sz: nat)
    requires i < |h.entry| && h.entry[i].va == va && h.entry[i].sz == sz
    ensures !Panics(h, i, va, sz)
  {
  }

  lemma PageBack(pa: nat, v: nat, k: nat)
    requires Aligned(v, k)
    ensures PageOf(v + (pa - PageOf(pa, k)), k) == v
  {
    LowBitsOfSum(v, LowBits(pa, k), k);
  }

  lemma {:induction false} LowBitsOfSum(v: nat, d: nat, k: nat)
    requires Aligned(v, k) && d < Pow2(k)
    ensures LowBits(v + d, k) == d
    decreases k
  {
    LowBitsSplit(v, k);
    ShrStep(v, k, d);
  }

  lemma NewWasUnhashed(s: Aspace, k: nat, pa: nat, size: nat, flags: nat, newVa: Option<nat>, a: nat)
    requires Inv(s, k) && (forall j: nat :: !Holds(s.h, j, PageOf(pa, k)))
    requires MapSpec(s, k, pa, size, flags, newVa).0.Some?
    ensures PageOf(pa, k) <= a < PageOf(pa, k) + RoundUp(size, k) ==> Xlat(s.h, a).None?
  {
    hide Bst, Inv, Lookup, UsedAreListed, ListedAreUsed, MapSpec, LowBits, RoundUp, Aligned;
    InvIsGood(s, k);
    var i := MapUnheld(s, k, pa, size, flags, newVa);
    assert !Overlaps(s.h, PageOf(pa, k), RoundUp(size, k));
    if PageOf(pa, k) <= a < PageOf(pa, k) + RoundUp(size, k) && Lookup(s.h.tree, a).Some? {
      var j := Lookup(s.h.tree, a).value.val;
      assert Holds(s.h, j, a) ==> Meets(s.h, j, PageOf(pa, k), RoundUp(size, k));
      HoldsIsLookup(s.h, 0, a);
    }
  }

  lemma UndoSpan(s: Aspace, v: nat, pa: nat, sz: nat, flags: nat)
    requires Good(s.h) && MappedIsHashed(s) && Range(v, sz) !! s.vas
    ensures s.pt + Span(v, pa, sz, flags) - Range(v, sz) == s.pt && s.vas + Range(v, sz) - Range(v, sz) == s.vas
  {
    hide Good, Xlat;
    assert forall x :: x in s.pt ==> x in s.vas;
  }

  // ----- references over runs -----

  /** What a call does to the references on every address. Mapping a held page
      adds one on its whole entry, mapping a new range puts one on it; unmapping
      takes one from the whole entry, or clears the range when it was the last. */
  lemma MapRefs(s: Aspace, k: nat, i: nat, pa: nat, size: nat, flags: nat, newVa: Option<nat>, a: nat)
    requires Inv(s, k) && MapSpec(s, k, pa, size, flags, newVa).0.Some?
    ensures var s' := MapSpec(s, k, pa, size, flags, newVa).1;
            var tpa := PageOf(pa, k);
            && (Holds(s.h, i, tpa) ==>
                  && Xlat(s'.h, a) == Xlat(s.h, a)
                  && Refs(s'.h, a) == Refs(s.h, a) + (if Holds(s.h, i, a) then 1 else 0))
            && ((forall j: nat :: !Holds(s.h, j, tpa)) ==>
                  Refs(s'.h, a) == if tpa <= a < tpa + RoundUp(size, k) then 1 else Refs(s.h, a))
  {
    hide Good, HashIsMapped, MappedIsHashed, PagesToPages, MapSpec, LowBits, RoundUp, Aligned, Pow2, Xlat, Refs, Add;
    var tpa := PageOf(pa, k);
    if Holds(s.h, i, tpa) {
      MapHeld(s, k, i, pa, size, flags, newVa);
      RecountRefs(s.h, i, s.h.entry[i].ref + 1, a);
      RefsOfSlot(s.h, i, a);
    } else if forall j: nat :: !Holds(s.h, j, tpa) {
      UnheldIsUnhashed(s.h, tpa);
      MapNewIs(s, k, pa, size, flags, newVa);
      AddNewRefs(s.h, tpa, newVa.value, RoundUp(size, k), flags, a);
    }
  }

  lemma UnmapRefs(s: Aspace, k: nat, i: nat, va0: nat, size: nat, a: nat)
    requires Inv(s, k) && PageOf(va0, k) in s.pt && Holds(s.h, i, s.pt[PageOf(va0, k)].0)
    requires UnmapSpec(s, k, va0, size).0 == Code(VMM_OK)
    ensures var s' := UnmapSpec(s, k, va0, size).1;
            var pa, ref := s.pt[PageOf(va0, k)].0, s.h.entry[i].ref;
            && (ref > 1 ==>
                  && Xlat(s'.h, a) == Xlat(s.h, a) && s'.pt == s.pt
                  && Refs(s'.h, a) == Refs(s.h, a) - (if Holds(s.h, i, a) then 1 else 0))
            && (ref == 1 ==> Refs(s'.h, a) == if pa <= a < pa + RoundUp(size, k) then 0 else Refs(s.h, a))
  {
    hide Good, HashIsMapped, MappedIsHashed, PagesToPages, UnmapSpec, LowBits, RoundUp, Aligned, Pow2, Xlat, Refs;
    UnmapMapped(s, k, i, va0, size, a);
    if s.h.entry[i].ref > 1 {
      RecountRefs(s.h, i, s.h.entry[i].ref - 1, a);
      RefsOfSlot(s.h, i, a);
    }
  }

  /** The physical range of a call: the pages asked for, or those that the pages
      given back map to. `None` for an unmap that fails. */
  ghost function RangeOf(s: Aspace, k: nat, op: Op): Option<(nat, nat)> {
    match op
    case MapOp(pa, size, flags, newVa) => Some((PageOf(pa, k), RoundUp(size, k)))
    case UnmapOp(va, size) =>
      if PageOf(va, k) in s.pt then Some((s.pt[PageOf(va, k)].0, RoundUp(size, k))) else None
  }

  /** The call names whole entries: a page that a slot holds is the start of its
      entry, and the size is the size of the entry. */
  ghost predicate Whole(s: Aspace, k: nat, op: Op) {
    var r := RangeOf(s, k, op);
    r.Some? ==> forall i: nat :: Holds(s.h, i, r.value.0) ==>
      s.h.entry[i].pa == r.value.0 && s.h.entry[i].sz == r.value.1
  }

  /** Maps of `a` less unmaps of `a` in one call. */
  ghost function Weight(s: Aspace, k: nat, op: Op, a: nat): int {
    var r := RangeOf(s, k, op);
    if r.Some? && r.value.0 <= a < r.value.0 + r.value.1 then if op.MapOp? then 1 else -1 else 0
  }

  ghost predicate WholeRun(s: Aspace, k: nat, ops: seq<Op>)
    requires Good(s.h)
    decreases |ops|
  {
    ops != [] ==> Whole(s, k, ops[0]) && WholeRun(Step(s, k, ops[0]), k, ops[1..])
  }

  /** Maps of `a` less unmaps of `a` over the run. */
  ghost function Net(s: Aspace, k: nat, ops: seq<Op>, a: nat): int
    requires Good(s.h)
    decreases |ops|
  {
    if ops == [] then 0 else Weight(s, k, ops[0], a) + Net(Step(s, k, ops[0]), k, ops[1..], a)
  }

  lemma SlotOf(h: Hash, a: nat) returns (i: nat)
    requires Good(h)
    ensures Holds(h, i, a) || forall j: nat :: !Holds(h, j, a)
  {
    i := 0;
    if j: nat :| Holds(h, j, a) { i := j; }
  }

  lemma StepWeighs(s: Aspace, k: nat, op: Op, a: nat)
    requires Inv(s, k) && Returns(s, k, op) && Whole(s, k, op)
    ensures Refs(Step(s, k, op).h, a) == Refs(s.h, a) + Weight(s, k, op, a)
  {
    hide Good, HashIsMapped, MappedIsHashed, PagesToPages, MapSpec, UnmapSpec, LowBits, RoundUp, Aligned, Refs;
    match op
    case MapOp(pa, size, flags, newVa) =>
      var i := SlotOf(s.h, PageOf(pa, k));
      MapRefs(s, k, i, pa, size, flags, newVa, a);
      if !Holds(s.h, i, PageOf(pa, k)) {
        NewWasUnhashed(s, k, pa, size, flags, newVa, a);
        RefsOfSlot(s.h, 0, a);
      }
    case UnmapOp(va, size) =>
      if PageOf(va, k) in s.pt {
        var i := MappedHasSlot(s, k, PageOf(va, k));
        UnmapMapped(s, k, i, va, size, a);
        UnmapRefs(s, k, i, va, size, a);
        RefsOfSlot(s.h, i, a);
      } else {
        UnmapUnmapped(s, k, va, size);
      }
  }

  /** Over every run of calls that name whole entries, the references on an
      address are the maps of it less the unmaps of it; so it stays translated
      exactly while it has been mapped more often than unmapped. */
  lemma {:induction false} EveryRunCountsReferences(s: Aspace, k: nat, ops: seq<Op>, a: nat)
    requires Inv(s, k) && IsRun(s, k, ops) && WholeRun(s, k, ops)
    ensures var t := Exec(s, k, ops);
            && Good(t.h) && Refs(t.h, a) == Refs(s.h, a) + Net(s, k, ops, a)
            && (Xlat(t.h, a).Some? <==> Refs(s.h, a) + Net(s, k, ops, a) > 0)
    decreases |ops|
  {
    hide Inv, Good, Returns, Step, Whole, Weight, Refs, Xlat, FreshOk, RoundUp;
    InvIsGood(s, k);
    if ops == [] {
      RefsOfSlot(s.h, 0, a);
    } else {
      StepWeighs(s, k, ops[0], a);
      StepKeeps(s, k, ops[0]);
      EveryRunCountsReferences(Step(s, k, ops[0]), k, ops[1..], a);
    }
  }

  lemma StepKeeps(s: Aspace, k: nat, op: Op)
    requires Inv(s, k) && Returns(s, k, op) && (op.MapOp? ==> FreshOk(s, op.newVa, RoundUp(op.size, k)))
    ensures Inv(Step(s, k, op), k)
  {
    hide HashIsMapped, MappedIsHashed, PagesToPages, MapSpec, UnmapSpec, FreshOk, RoundUp;
    match op
    case MapOp(pa, size, flags, newVa) => MapKeepsInv(s, k, pa, size, flags, newVa);
    case UnmapOp(va, size) => UnmapKeepsInv(s, k, va, size);
  }

  /** While references are left, a call does not move an address. */
  lemma StaysWhileReferenced(s: Aspace, k: nat, op: Op, a: nat)
    requires Inv(s, k) && Returns(s, k, op) && Refs(s.h, a) > 0 && Refs(Step(s, k, op).h, a) > 0
    ensures Xlat(Step(s, k, op).h, a) == Xlat(s.h, a)
  {
    hide Good, HashIsMapped, MappedIsHashed, PagesToPages, MapSpec, UnmapSpec, LowBits, RoundUp, Aligned, Refs, Xlat;
    match op
    case MapOp(pa, size, flags, newVa) =>
      var i := SlotOf(s.h, PageOf(pa, k));
      MapRefs(s, k, i, pa, size, flags, newVa, a);
      if !Holds(s.h, i, PageOf(pa, k)) {
        NewWasUnhashed(s, k, pa, size, flags, newVa, a);
        RefsOfSlot(s.h, 0, a);
        UnheldIsUnhashed(s.h, PageOf(pa, k));
        MapXlat(s, k, pa, size, flags, newVa, a);
      }
    case UnmapOp(va, size) =>
      if PageOf(va, k) in s.pt {
        var i := MappedHasSlot(s, k, PageOf(va, k));
        UnmapMapped(s, k, i, va, size, a);
        UnmapRefs(s, k, i, va, size, a);
        RefsOfSlot(s.h, i, a);
      } else {
        UnmapUnmapped(s, k, va, size);
      }
  }

  // ----- n maps, n unmaps -----

  function MapTimes(s: Aspace, k: nat, pa: nat, size: nat, flags: nat, newVa: Option<nat>, n: nat): (r: Aspace)
    requires Good(s.h)
    ensures Good(r.h)
  {
    if n == 0 then s else MapSpec(MapTimes(s, k, pa, size, flags, newVa, n - 1), k, pa, size, flags, newVa).1
  }

  function UnmapTimes(s: Aspace, k: nat, va: nat, size: nat, n: nat): (r: Aspace)
    requires Good(s.h)
    ensures Good(r.h)
  {
    if n == 0 then s else UnmapSpec(UnmapTimes(s, k, va, size, n - 1), k, va, size).1
  }

  /** The state with `ref` references on slot `i`. */
  function Recounted(s: Aspace, i: nat, ref: nat): Aspace
    requires i < |s.h.entry|
  {
    s.(h := Hash(s.h.entry[i := s.h.entry[i].(ref := ref)], s.h.tree))
  }

  lemma RecountedInv(s: Aspace, k: nat, i: nat, ref: nat)
    requires Inv(s, k) && i < |s.h.entry| && s.h.entry[i].ref > 0 && ref > 0
    ensures Inv(Recounted(s, i, ref), k)
    ensures forall a: nat :: Xlat(Recounted(s, i, ref).h, a) == Xlat(s.h, a)
  {
    hide Inv, Good, Xlat;
    InvIsGood(s, k);
    forall a: nat ensures Good(Recounted(s, i, ref).h) && Xlat(Recounted(s, i, ref).h, a) == Xlat(s.h, a) {
      RecountRefs(s.h, i, ref, a);
    }
    RecountRefs(s.h, i, ref, 0);
    SameXlatKeepsInv(s, Recounted(s, i, ref).h, k);
  }

  /** Slot `i` is the whole range that a call for `pa` and `size` is about. */
  ghost predicate IsRange(s: Aspace, k: nat, i: nat, pa: nat, size: nat, flags: nat, va: nat) {
    && i < |s.h.entry| && s.h.entry[i].ref > 0 && RoundUp(size, k) > 0
    && s.h.entry[i] == Entry(PageOf(pa, k), va, RoundUp(size, k), flags, s.h.entry[i].ref)
  }

  /** Mapping a range again and again only counts. */
  lemma {:induction false} MapAgainCounts(
    s: Aspace, k: nat, i: nat, pa: nat, size: nat, flags: nat, newVa: Option<nat>, va: nat, n: nat)
    requires Inv(s, k) && IsRange(s, k, i, pa, size, flags, va) && s.h.entry[i].ref == 1
    ensures MapTimes(s, k, pa, size, flags, newVa, n) == Recounted(s, i, n + 1)
    decreases n
  {
    hide Inv, Good, MapSpec, RoundUp, LowBits;
    InvIsGood(s, k);
    if n == 0 {
      assert s.h.entry[i := s.h.entry[i].(ref := 1)] == s.h.entry;
    } else {
      MapAgainCounts(s, k, i, pa, size, flags, newVa, va, n - 1);
      RecountedInv(s, k, i, n);
      var t := Recounted(s, i, n);
      assert Holds(t.h, i, PageOf(pa, k));
      MapHeld(t, k, i, pa, size, flags, newVa);
      assert t.h.entry[i := t.h.entry[i].(ref := n + 1)] == s.h.entry[i := s.h.entry[i].(ref := n + 1)];
    }
  }

  /** Unmapping a range that `ref` maps hold: the first `ref - 1` times only the
      count changes. */
  lemma {:induction false} UnmapCounts(
    s: Aspace, k: nat, i: nat, pa: nat, size: nat, flags: nat, va: nat, n: nat)
    requires Inv(s, k) && IsRange(s, k, i, pa, size, flags, va) && n < s.h.entry[i].ref && Aligned(va, k)
    ensures UnmapTimes(s, k, va, size, n) == Recounted(s, i, s.h.entry[i].ref - n)
    decreases n
  {
    hide Inv, Good, UnmapSpec, RoundUp, LowBits, Aligned, Panics;
    InvIsGood(s, k);
    var ref := s.h.entry[i].ref;
    if n == 0 {
      assert s.h.entry[i := s.h.entry[i].(ref := ref)] == s.h.entry;
    } else {
      UnmapCounts(s, k, i, pa, size, flags, va, n - 1);
      var t := Recounted(s, i, ref - (n - 1));
      RecountedInv(s, k, i, ref - (n - 1));
      RangeIsMapped(t, k, i, pa, size, flags, va);
      UnmapMapped(t, k, i, va, size, 0);
      WholeNeverPanics(t.h, i, va, RoundUp(size, k));
      assert t.h.entry[i := t.h.entry[i].(ref := ref - n)] == s.h.entry[i := s.h.entry[i].(ref := ref - n)];
    }
  }

  lemma RangeIsMapped(s: Aspace, k: nat, i: nat, pa: nat, size: nat, flags: nat, va: nat)
    requires Inv(s, k) && IsRange(s, k, i, pa, size, flags, va) && Aligned(va, k)
    ensures PageOf(va, k) == va && va in s.pt && s.pt[va].0 == PageOf(pa, k) && Holds(s.h, i, PageOf(pa, k))
  {
    hide Good, MappedIsHashed, PagesToPages, RoundUp, LowBits, Aligned, Xlat;
    PageOfAligned(va, k);
    HeldTranslates(s, k, i, PageOf(pa, k));
  }

  /** A new range mapped `n` times: the first `n - 1` unmaps leave page table,
      pool and the physical-to-virtual function as the first map made them, and
      the last one makes them what they were before it. */
  lemma NthUnmapRemoves(s: Aspace, k: nat, pa: nat, size: nat, flags: nat, newVa: Option<nat>, n: nat, m: nat, a: nat)
    requires Inv(s, k) && FreshOk(s, newVa, RoundUp(size, k)) && 0 < n && m <= n
    requires (forall j: nat :: !Holds(s.h, j, PageOf(pa, k))) && MapSpec(s, k, pa, size, flags, newVa).0.Some?
    ensures var (va, s1) := MapSpec(s, k, pa, size, flags, newVa);
            var t := UnmapTimes(MapTimes(s1, k, pa, size, flags, newVa, n - 1), k, PageOf(va.value, k), size, m);
            var as_ := if m < n then s1 else s;
            t.pt == as_.pt && t.vas == as_.vas && Xlat(t.h, a) == Xlat(as_.h, a)
  {
    hide Good, HashIsMapped, PagesToPages, MappedIsHashed, MapSpec, UnmapSpec, LowBits, RoundUp, Aligned, Pow2, Xlat, Overlaps, Panics;
    var i := MapUnheld(s, k, pa, size, flags, newVa);
    var (r, s1) := MapSpec(s, k, pa, size, flags, newVa);
    var va := newVa.value;
    MapKeepsInv(s, k, pa, size, flags, newVa);
    PageBack(pa, va, k);
    MapAgainCounts(s1, k, i, pa, size, flags, newVa, va, n - 1);
    var sn := Recounted(s1, i, n);
    RecountedInv(s1, k, i, n);
    if m < n {
      UnmapCounts(sn, k, i, pa, size, flags, va, m);
      RecountedInv(sn, k, i, n - m);
    } else {
      UnmapCounts(sn, k, i, pa, size, flags, va, n - 1);
      assert Recounted(sn, i, 1) == s1 by { assert sn.h.entry[i := sn.h.entry[i].(ref := 1)] == s1.h.entry; }
      MapThenUnmapRestores(s, k, pa, size, flags, newVa, a);
      SamePage(s1, k, r.value, va, size);
    }
  }

  lemma SamePage(s: Aspace, k: nat, va: nat, page: nat, size: nat)
    requires Good(s.h) && PageOf(va, k) == page && Aligned(page, k)
    ensures UnmapSpec(s, k, va, size) == UnmapSpec(s, k, page, size)
  {
    hide Good, LowBits, RoundUp, Aligned, Del;
    PageOfAligned(page, k);
  }
}
