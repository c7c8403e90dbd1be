/** The host address space: `host_memmap` and `host_memunmap` over the
    memory-map hash, the page table and the virtual address pool. */
module HostAspace {
  import opened Arith
  import opened Common
  import opened IntervalTree
  import opened MemHash

  /** Hash, page table (byte by byte) and the virtual addresses handed out by
      the pool. */
  datatype Aspace = Aspace(h: Hash, pt: Translation, vas: set<nat>)

  // ----- the operations on values, for pages of size 2^k -----

  /** `host_memmap`; `None` is a `vmm_panic`. `newVa` is the answer of the
      virtual address pool, used when the address is not hashed yet. */
  function MapSpec(s: Aspace, k: nat, pa: nat, size: nat, flags: nat, newVa: Option<nat>)
    : (r: (Option<nat>, Aspace))
    requires Good(s.h)
    ensures Good(r.1.h)
  {
    hide Good, Add;
    var sz := RoundUp(size, k);
    var off := LowBits(pa, k);
    var tpa := pa - off;
    match Pa2Va(s.h, tpa)
    case Some(found) => MapAgain(s, k, tpa, off, sz, flags, found)
    case None =>
      if newVa.None? || LowBits(newVa.value, k) != 0 then (None, s)
      else
        var va := newVa.value;
        var (o, h') := Add(s.h, tpa, va, sz, flags);
        if o == Code(VMM_OK) then
          (Some(va + off), Aspace(h', s.pt + Span(va, tpa, sz, flags), s.vas + Range(va, sz)))
        else (None, s)
  }

  /** The call for an address that is hashed already, as `found`. */
  function MapAgain(s: Aspace, k: nat, tpa: nat, off: nat, sz: nat, flags: nat, found: (nat, nat, nat))
    : (r: (Option<nat>, Aspace))
    requires Good(s.h)
    ensures Good(r.1.h)
  {
    hide Good, Add;
    if flags != found.2 || found.1 < sz then (None, s)
    else
      var va := found.0 - LowBits(found.0, k);
      var (o, h') := Add(s.h, tpa, va, sz, flags);
      if o == Code(VMM_OK) then (Some(va + off), s.(h := h')) else (None, s)
  }

  /** `host_memunmap`. */
  function UnmapSpec(s: Aspace, k: nat, va0: nat, size: nat): (r: (Outcome, Aspace))
    requires Good(s.h)
    ensures Good(r.1.h)
  {
    hide Good, Del;
    var sz := RoundUp(size, k);
    var va := va0 - LowBits(va0, k);
    if va !in s.pt then (Code(VMM_EFAIL), s)
    else
      var (o, h') := Del(s.h, s.pt[va].0, va, sz);
      if o == Code(VMM_EBUSY) then (Code(VMM_OK), s.(h := h'))
      else if o == Code(VMM_OK) then
        (Code(VMM_OK), Aspace(h', s.pt - Range(va, sz), s.vas - Range(va, sz)))
      else (Panic, s)
  }

  /** The pool hands out addresses it has not handed out yet, and refuses an
      empty request. */
  ghost predicate FreshOk(s: Aspace, newVa: Option<nat>, sz: nat) {
    newVa.Some? ==> sz > 0 && Range(newVa.value, sz) !! s.vas
  }

  // ----- the invariant -----

  /** Every hashed address is mapped where the hash says, with its flags. */
  ghost predicate HashIsMapped(s: Aspace)
    requires Good(s.h)
  {
    forall a: nat :: Xlat(s.h, a).Some? ==>
      var (v, f) := Xlat(s.h, a).value;
      v in s.pt && s.pt[v] == (a, f)
  }

  /** Every mapping is hashed, at the address it maps to. */
  ghost predicate MappedIsHashed(s: Aspace)
    requires Good(s.h)
  {
    forall v :: v in s.pt ==> Xlat(s.h, s.pt[v].0) == Some((v, s.pt[v].1)) && v in s.vas
  }

  /** Page boundaries are hashed at page boundaries. */
  ghost predicate PagesToPages(s: Aspace, k: nat)
    requires Good(s.h)
  {
    forall a: nat :: Aligned(a, k) && Xlat(s.h, a).Some? ==> Aligned(Xlat(s.h, a).value.0, k)
  }

  /** The page table is exactly the inverse of the physical-to-virtual function. */
  ghost predicate Inv(s: Aspace, k: nat) {
    Good(s.h) && HashIsMapped(s) && MappedIsHashed(s) && PagesToPages(s, k)
  }

  /** Different live entries have disjoint physical and virtual ranges. */
  lemma EntriesDisjoint(s: Aspace, k: nat, i: nat, j: nat, p: nat, q: nat)
    requires Inv(s, k) && i < |s.h.entry| && j < |s.h.entry| && i != j
    requires s.h.entry[i].ref > 0 && s.h.entry[j].ref > 0
    requires p < s.h.entry[i].sz && q < s.h.entry[j].sz
    ensures s.h.entry[i].pa + p != s.h.entry[j].pa + q
    ensures s.h.entry[i].va + p != s.h.entry[j].va + q
  {
    hide Bst, Xlat, Lookup;
    var x, y := ItemOf(s.h.entry, i), ItemOf(s.h.entry, j);
    ItemsApart(s.h.tree, x, y);
    EntryXlat(s.h, x, x.lo + p);
    EntryXlat(s.h, y, y.lo + q);
  }

  // ----- every call keeps the invariant -----

  /** A range that was added as new was not hashed anywhere before. */
  lemma AddNewWasFree(h: Hash, pa: nat, va: nat, sz: nat, flags: nat, a: nat)
    requires Good(h) && Lookup(h.tree, pa).None? && Add(h, pa, va, sz, flags).0 == Code(VMM_OK)
    requires pa <= a < pa + sz
    ensures Xlat(h, a).None?
  {
    hide Bst, Insert, Lookup, FirstFree, UsedAreListed, ListedAreUsed;
    var i := FirstFree(h.entry, 0).value;
    AddNewKeepsGood(h, pa, va, sz, flags, i);
    assert Lookup(h.tree, a).Some? ==> Collide(Item(pa, pa + sz, i), Lookup(h.tree, a).value);
    InsertKeepsBst(h.tree, Item(pa, pa + sz, i));
  }

  /** The new mapping is hashed and entered in the page table alike. */
  lemma MapNewKeepsInv(s: Aspace, s': Aspace, k: nat, tpa: nat, va: nat, sz: nat, flags: nat)
    requires Inv(s, k) && Lookup(s.h.tree, tpa).None?
    requires Range(va, sz) !! s.vas && Aligned(tpa, k) && Aligned(va, k)
    requires Add(s.h, tpa, va, sz, flags) == (Code(VMM_OK), s'.h)
    requires s'.pt == s.pt + Span(va, tpa, sz, flags) && s'.vas == s.vas + Range(va, sz)
    ensures Inv(s', k)
  {
    hide Good, Lookup, Add, Xlat, Aligned;
    forall a: nat
      ensures Xlat(s'.h, a) == (if tpa <= a < tpa + sz then Some((va + (a - tpa), flags)) else Xlat(s.h, a))
      ensures tpa <= a < tpa + sz ==> Xlat(s.h, a).None?
      ensures Aligned(a, k) && tpa <= a < tpa + sz ==> Aligned(va + (a - tpa), k)
    {
      AddXlat(s.h, tpa, va, sz, flags, a);
      if tpa <= a < tpa + sz {
        AddNewWasFree(s.h, tpa, va, sz, flags, a);
        if Aligned(a, k) {
          AlignedSub(a, tpa, k);
          AlignedAdd(va, a - tpa, k);
        }
      }
    }
  }

  lemma SameXlatKeepsInv(s: Aspace, h': Hash, k: nat)
    requires Inv(s, k) && Good(h') && forall a: nat :: Xlat(h', a) == Xlat(s.h, a)
    ensures Inv(s.(h := h'), k)
  {
    hide Good, Xlat, Aligned;
  }

  /** `host_memmap` keeps the page table the inverse of the hash. */
  lemma MapKeepsInv(s: Aspace, k: nat, pa: nat, size: nat, flags: nat, newVa: Option<nat>)
    requires Inv(s, k) && FreshOk(s, newVa, RoundUp(size, k))
    ensures Inv(MapSpec(s, k, pa, size, flags, newVa).1, k)
  {
    hide Bst, UsedAreListed, ListedAreUsed, HashIsMapped, MappedIsHashed, PagesToPages,
         Add, Lookup, Aligned, LowBits, RoundUp, Xlat, Span, Range;
    var sz, tpa := RoundUp(size, k), pa - LowBits(pa, k);
    LowBitsSplit(pa, k);
    var s' := MapSpec(s, k, pa, size, flags, newVa).1;
    if Lookup(s.h.tree, tpa).Some? {
      if s' != s {
        var tva := Pa2Va(s.h, tpa).value.0;
        forall a: nat ensures Xlat(s'.h, a) == Xlat(s.h, a) {
          AddXlat(s.h, tpa, tva - LowBits(tva, k), sz, flags, a);
        }
        SameXlatKeepsInv(s, s'.h, k);
      }
    } else if newVa.Some? && LowBits(newVa.value, k) == 0 {
      LowBitsSplit(newVa.value, k);
      if s' != s {
        MapNewKeepsInv(s, s', k, tpa, newVa.value, sz, flags);
      }
    }
  }

  /** A range inside one entry is mapped as one piece. */
  lemma PieceOfEntry(s: Aspace, k: nat, x: Item, a: nat, v: nat)
    requires Inv(s, k) && x in Items(s.h.tree)
    ensures var e := s.h.entry[x.val];
            && (Contains(x, a) ==> Xlat(s.h, a) == Some((e.va + (a - e.pa), e.flags)))
            && (e.va <= v < e.va + e.sz ==> v in s.pt && s.pt[v] == (e.pa + (v - e.va), e.flags))
  {
    hide Bst, Xlat, Lookup, MappedIsHashed, PagesToPages;
    var e := s.h.entry[x.val];
    if Contains(x, a) { EntryXlat(s.h, x, a); }
    if e.va <= v < e.va + e.sz { EntryXlat(s.h, x, e.pa + (v - e.va)); }
  }

  lemma UnmapLastKeepsInv(s: Aspace, s': Aspace, k: nat, x: Item, pa: nat, va: nat, sz: nat)
    requires Inv(s, k) && Good(s'.h) && x in Items(s.h.tree) && Contains(x, pa)
    requires var e := s.h.entry[x.val]; !OutOfEntry(e, pa, va, sz) && e.pa + va == e.va + pa
    requires forall a: nat :: Xlat(s'.h, a) == if pa <= a < pa + sz then None else Xlat(s.h, a)
    requires s'.pt == s.pt - Range(va, sz) && s'.vas == s.vas - Range(va, sz)
    ensures Inv(s', k)
  {
    hide Good, Xlat, Aligned;
    GoodItem(s.h, x);
    var e := s.h.entry[x.val];
    forall a: nat | pa <= a < pa + sz ensures Xlat(s.h, a) == Some((va + (a - pa), e.flags)) {
      PieceOfEntry(s, k, x, a, 0);
    }
    forall v: nat | va <= v < va + sz ensures v in s.pt && s.pt[v] == (pa + (v - va), e.flags) {
      PieceOfEntry(s, k, x, 0, v);
    }
  }

  /** What `host_memunmap` passes on, the address it reads from the page table,
      has the same offset into its entry as the virtual address. */
  lemma UnmapOffsetsAgree(s: Aspace, k: nat, va: nat)
    requires Inv(s, k) && va in s.pt
    ensures OffsetsAgree(s.h, s.pt[va].0, va)
  {
    hide Bst, UsedAreListed, ListedAreUsed, HashIsMapped, PagesToPages, Lookup;
    assert Xlat(s.h, s.pt[va].0) == Some((va, s.pt[va].1));
    GoodItem(s.h, Lookup(s.h.tree, s.pt[va].0).value);
  }

  /** `host_memunmap` keeps the page table the inverse of the hash. */
  lemma UnmapKeepsInv(s: Aspace, k: nat, va0: nat, size: nat)
    requires Inv(s, k) && !UnmapSpec(s, k, va0, size).0.Panic?
    ensures Inv(UnmapSpec(s, k, va0, size).1, k)
  {
    hide Bst, UsedAreListed, ListedAreUsed, HashIsMapped, PagesToPages, Split, Lookup, Aligned, LowBits, RoundUp, Range;
    var sz := RoundUp(size, k);
    var va := va0 - LowBits(va0, k);
    if va in s.pt {
      var pa := s.pt[va].0;
      var s' := UnmapSpec(s, k, va0, size).1;
      assert Xlat(s.h, pa) == Some((va, s.pt[va].1));
      var x := Lookup(s.h.tree, pa).value;
      GoodItem(s.h, x);
      var o := Del(s.h, pa, va, sz).0;
      UnmapOffsetsAgree(s, k, va);
      forall a: nat
        ensures o.Code? ==>
                  Xlat(Del(s.h, pa, va, sz).1, a) == if o.rc == VMM_OK && pa <= a < pa + sz then None else Xlat(s.h, a)
      {
        DelXlat(s.h, pa, va, sz, a);
      }
      if o == Code(VMM_EBUSY) {
        SameXlatKeepsInv(s, s'.h, k);
      } else {
        UnmapLastKeepsInv(s, s', k, x, pa, va, sz);
      }
    }
  }

  // ----- runs -----

  datatype Op =
    | MapOp(pa: nat, size: nat, flags: nat, newVa: Option<nat>)
    | UnmapOp(va: nat, size: nat)

  /** The call returns, rather than panics. */
  ghost predicate Returns(s: Aspace, k: nat, op: Op)
    requires Good(s.h)
  {
    match op
    case MapOp(pa, size, flags, newVa) => MapSpec(s, k, pa, size, flags, newVa).0.Some?
    case UnmapOp(va, size) => UnmapSpec(s, k, va, size).0.Code?
  }

  ghost function Step(s: Aspace, k: nat, op: Op): (s': Aspace)
    requires Good(s.h)
    ensures Good(s'.h)
  {
    match op
    case MapOp(pa, size, flags, newVa) => MapSpec(s, k, pa, size, flags, newVa).1
    case UnmapOp(va, size) => UnmapSpec(s, k, va, size).1
  }

  /** The calls made one after the other all return, and the pool keeps its
      promise at each of them. */
  ghost predicate IsRun(s: Aspace, k: nat, ops: seq<Op>)
    requires Good(s.h)
    decreases |ops|
  {
    ops != [] ==>
      && Returns(s, k, ops[0])
      && (ops[0].MapOp? ==> FreshOk(s, ops[0].newVa, RoundUp(ops[0].size, k)))
      && IsRun(Step(s, k, ops[0]), k, ops[1..])
  }

  ghost function Exec(s: Aspace, k: nat, ops: seq<Op>): (s': Aspace)
    requires Good(s.h)
    decreases |ops|
  {
    if ops == [] then s else Exec(Step(s, k, ops[0]), k, ops[1..])
  }

  /** Over every run of map and unmap calls with one page size the page table
      stays exactly the inverse of the hash. */
  lemma {:induction false} EveryRunKeepsInv(s: Aspace, k: nat, ops: seq<Op>)
    requires Inv(s, k) && IsRun(s, k, ops)
    ensures Inv(Exec(s, k, ops), k)
    decreases |ops|
  {
    hide HashIsMapped, MappedIsHashed, PagesToPages, MapSpec, UnmapSpec, FreshOk, RoundUp;
    if ops != [] {
      match ops[0] {
        case MapOp(pa, size, flags, newVa) => MapKeepsInv(s, k, pa, size, flags, newVa);
        case UnmapOp(va, size) => UnmapKeepsInv(s, k, va, size);
      }
      EveryRunKeepsInv(Step(s, k, ops[0]), k, ops[1..]);
    }
  }

  lemma EmptyIsGood(count: nat, vas: set<nat>, k: nat)
    ensures Inv(Aspace(Hash(seq(count, _ => FREE_ENTRY), Leaf), map[], vas), k)
  {
  }

  /** After every run from the empty address space va2pa(pa2va(pa)) == pa, with
      the flags of the entry, and the other way round. */
  lemma EveryRunRoundTrips(count: nat, vas: set<nat>, k: nat, ops: seq<Op>, a: nat, v: nat)
    requires Good(Hash(seq(count, _ => FREE_ENTRY), Leaf))
    requires IsRun(Aspace(Hash(seq(count, _ => FREE_ENTRY), Leaf), map[], vas), k, ops)
    ensures var s := Exec(Aspace(Hash(seq(count, _ => FREE_ENTRY), Leaf), map[], vas), k, ops);
            && Good(s.h)
            && (Xlat(s.h, a).Some? ==>
                  Xlat(s.h, a).value.0 in s.pt && s.pt[Xlat(s.h, a).value.0] == (a, Xlat(s.h, a).value.1))
            && (v in s.pt ==> Xlat(s.h, s.pt[v].0) == Some((v, s.pt[v].1)))
  {
    hide Good, Xlat, IsRun, Exec, PagesToPages;
    EmptyIsGood(count, vas, k);
    EveryRunKeepsInv(Aspace(Hash(seq(count, _ => FREE_ENTRY), Leaf), map[], vas), k, ops);
  }

  // ----- the address returned -----

  predicate Reaches(pt: Translation, v: nat, pa: nat, flags: nat, j: nat) {
    v + j in pt && pt[v + j] == (pa + j, flags)
  }

  /** What a call for an address hashed already returns. */
  lemma MapAgainXlat(s: Aspace, k: nat, pa: nat, size: nat, flags: nat, newVa: Option<nat>, j: nat)
    requires Inv(s, k) && MapSpec(s, k, pa, size, flags, newVa).0.Some?
    requires Xlat(s.h, pa - LowBits(pa, k)).Some? && LowBits(pa, k) + j < RoundUp(size, k)
    ensures var r := MapSpec(s, k, pa, size, flags, newVa);
            Xlat(r.1.h, pa + j) == Some((r.0.value + j, flags))
  {
    hide Good, HashIsMapped, MappedIsHashed, Add, Lookup, Aligned, LowBits, RoundUp, Xlat, MapSpec, Pa2Va, Pow2;
    var sz, tpa := RoundUp(size, k), pa - LowBits(pa, k);
    LowBitsSplit(pa, k);
    MapAgainIs(s, k, pa, size, flags, newVa);
    var tva := Xlat(s.h, tpa).value.0;
    LowBitsSplit(tva, k);
    WithinEntry(s.h, tpa, LowBits(pa, k) + j);
    AddAgainXlat(s.h, tpa, tva, sz, flags, pa + j);
  }

  lemma MapAgainIs(s: Aspace, k: nat, pa: nat, size: nat, flags: nat, newVa: Option<nat>)
    requires Good(s.h) && MapSpec(s, k, pa, size, flags, newVa).0.Some?
    requires Xlat(s.h, pa - LowBits(pa, k)).Some?
    ensures var (tva, f) := Xlat(s.h, pa - LowBits(pa, k)).value;
            var va := tva - LowBits(tva, k);
            var r := MapSpec(s, k, pa, size, flags, newVa);
            && f == flags && r.0.value == va + LowBits(pa, k)
            && Pa2Va(s.h, pa - LowBits(pa, k)).Some? && RoundUp(size, k) <= Pa2Va(s.h, pa - LowBits(pa, k)).value.1
            && Add(s.h, pa - LowBits(pa, k), va, RoundUp(size, k), flags) == (Code(VMM_OK), r.1.h)
  {
    hide Good, Lookup, Add, LowBits, RoundUp, Aligned, Pow2, Span, Range, Xlat, Pa2Va, MapAgain;
    var tpa, off, sz := pa - LowBits(pa, k), LowBits(pa, k), RoundUp(size, k);
    XlatIsPa2Va(s.h, tpa);
    assert MapSpec(s, k, pa, size, flags, newVa) == MapAgain(s, k, tpa, off, sz, flags, Pa2Va(s.h, tpa).value);
    AgainIs(s, k, tpa, off, sz, flags, Pa2Va(s.h, tpa).value);
  }

  lemma AgainIs(s: Aspace, k: nat, tpa: nat, off: nat, sz: nat, flags: nat, found: (nat, nat, nat))
    requires Good(s.h) && MapAgain(s, k, tpa, off, sz, flags, found).0.Some?
    ensures var va := found.0 - LowBits(found.0, k);
            var r := MapAgain(s, k, tpa, off, sz, flags, found);
            && found.2 == flags && r.0.value == va + off && sz <= found.1
            && Add(s.h, tpa, va, sz, flags) == (Code(VMM_OK), r.1.h)
  {
    hide Good, Add, LowBits, Pow2;
  }

  /** Addresses behind a hashed one, up to the end of its entry. */
  lemma WithinEntry(h: Hash, a: nat, d: nat)
    requires Good(h) && Xlat(h, a).Some? && Pa2Va(h, a).Some? && d < Pa2Va(h, a).value.1
    ensures Xlat(h, a + d) == Some((Xlat(h, a).value.0 + d, Xlat(h, a).value.1))
  {
    hide Bst, UsedAreListed, ListedAreUsed, Lookup;
    var x := Lookup(h.tree, a).value;
    GoodItem(h, x);
    EntryXlat(h, x, a);
    EntryXlat(h, x, a + d);
  }

  lemma AddAgainXlat(h: Hash, pa: nat, va: nat, sz: nat, flags: nat, a: nat)
    requires Good(h) && Xlat(h, pa).Some?
    ensures Xlat(Add(h, pa, va, sz, flags).1, a) == Xlat(h, a)
  {
    hide Bst, UsedAreListed, ListedAreUsed, Lookup, Insert, Add;
    AddXlat(h, pa, va, sz, flags, a);
  }

  /** The virtual address of the page that a call is about: where it is hashed,
      or what the pool hands out. */
  ghost function PageVa(s: Aspace, k: nat, pa: nat, newVa: Option<nat>): nat
    requires Good(s.h)
  {
    var x := Xlat(s.h, pa - LowBits(pa, k));
    if x.Some? then x.value.0 else if newVa.Some? then newVa.value else 0
  }

  /** Byte `j` lies within the rounded size, or is hashed already behind it, at
      the matching virtual address with the same flags. */
  ghost predicate Covered(s: Aspace, k: nat, pa: nat, size: nat, flags: nat, newVa: Option<nat>, j: nat)
    requires Good(s.h)
  {
    || LowBits(pa, k) + j < RoundUp(size, k)
    || Xlat(s.h, pa + j) == Some((PageVa(s, k, pa, newVa) + LowBits(pa, k) + j, flags))
  }

  /** The address returned is the page's, with the offset. */
  lemma ReturnedVa(s: Aspace, k: nat, pa: nat, size: nat, flags: nat, newVa: Option<nat>)
    requires Inv(s, k) && MapSpec(s, k, pa, size, flags, newVa).0.Some?
    ensures MapSpec(s, k, pa, size, flags, newVa).0.value == PageVa(s, k, pa, newVa) + LowBits(pa, k)
  {
    hide Good, HashIsMapped, MappedIsHashed, Aligned, LowBits, RoundUp, Xlat, MapSpec, Pa2Va, Pow2, Add;
    LowBitsSplit(pa, k);
    if Xlat(s.h, pa - LowBits(pa, k)).None? {
      MapNewIs(s, k, pa, size, flags, newVa);
    } else {
      MapAgainIs(s, k, pa, size, flags, newVa);
      LowBitsSplit(Xlat(s.h, pa - LowBits(pa, k)).value.0, k);
    }
  }

  /** What the call leaves of a byte behind the rounded size. */
  lemma BehindIsKept(s: Aspace, k: nat, pa: nat, size: nat, flags: nat, newVa: Option<nat>, j: nat)
    requires Inv(s, k) && MapSpec(s, k, pa, size, flags, newVa).0.Some? && RoundUp(size, k) <= LowBits(pa, k) + j
    ensures Xlat(MapSpec(s, k, pa, size, flags, newVa).1.h, pa + j) == Xlat(s.h, pa + j)
  {
    hide Good, HashIsMapped, MappedIsHashed, Aligned, LowBits, RoundUp, Xlat, MapSpec, Pa2Va, Pow2, Add, PagesToPages;
    var tpa := pa - LowBits(pa, k);
    if Xlat(s.h, tpa).None? {
      MapXlat(s, k, pa, size, flags, newVa, pa + j);
    } else {
      MapAgainIs(s, k, pa, size, flags, newVa);
      var tva := Xlat(s.h, tpa).value.0;
      AddAgainXlat(s.h, tpa, tva - LowBits(tva, k), RoundUp(size, k), flags, pa + j);
    }
  }

  lemma ReachesByte(s: Aspace, k: nat, pa: nat, size: nat, flags: nat, newVa: Option<nat>, j: nat)
    requires Inv(s, k) && FreshOk(s, newVa, RoundUp(size, k)) && j < size
    requires MapSpec(s, k, pa, size, flags, newVa).0.Some?
    ensures var r := MapSpec(s, k, pa, size, flags, newVa);
            Reaches(r.1.pt, r.0.value, pa, flags, j) <==> Covered(s, k, pa, size, flags, newVa, j)
  {
    hide Good, Xlat, Aligned, LowBits, RoundUp, MapSpec, PagesToPages, FreshOk, PageVa, Pow2;
    var r := MapSpec(s, k, pa, size, flags, newVa);
    MapKeepsInv(s, k, pa, size, flags, newVa);
    ReturnedVa(s, k, pa, size, flags, newVa);
    if LowBits(pa, k) + j < RoundUp(size, k) {
      if Xlat(s.h, pa - LowBits(pa, k)).None? {
        MapXlat(s, k, pa, size, flags, newVa, pa + j);
      } else {
        MapAgainXlat(s, k, pa, size, flags, newVa, j);
      }
    } else {
      BehindIsKept(s, k, pa, size, flags, newVa, j);
    }
  }

  /** `host_memmap` rounds the size without the page offset: the address returned
      reaches every byte asked for if and only if every byte behind the rounded
      size is hashed already, at the matching virtual address with the same
      flags. */
  lemma MapCoversIff(s: Aspace, k: nat, pa: nat, size: nat, flags: nat, newVa: Option<nat>)
    requires Inv(s, k) && FreshOk(s, newVa, RoundUp(size, k))
    requires MapSpec(s, k, pa, size, flags, newVa).0.Some?
    ensures var r := MapSpec(s, k, pa, size, flags, newVa);
            (forall j: nat :: j < size ==> Reaches(r.1.pt, r.0.value, pa, flags, j))
            <==> (forall j: nat :: j < size ==> Covered(s, k, pa, size, flags, newVa, j))
  {
    hide Good, HashIsMapped, MappedIsHashed, PagesToPages, MapSpec, FreshOk, Reaches, Covered, RoundUp;
    var r := MapSpec(s, k, pa, size, flags, newVa);
    forall j: nat | j < size
      ensures Reaches(r.1.pt, r.0.value, pa, flags, j) <==> Covered(s, k, pa, size, flags, newVa, j)
    {
      ReachesByte(s, k, pa, size, flags, newVa, j);
    }
  }

  /** A whole page from an address one behind a page boundary: the last byte is
      not mapped. */
  lemma OffsetIsForgotten(k: nat)
    requires k > 0
    ensures var s := Aspace(Hash([FREE_ENTRY], Leaf), map[], {});
            && Good(s.h)
            && var r := MapSpec(s, k, 1, Pow2(k), 0, Some(0));
               r.0 == Some(1) && !Reaches(r.1.pt, 1, 1, 0, Pow2(k) - 1)
  {
    hide Range, Good, Add, Aligned, Pow2, LowBits, RoundUp;
    var h, sz := Hash([FREE_ENTRY], Leaf), Pow2(k);
    AlignedPow2(k, k);
    OneAndZero(k);
    AddToEmpty(sz);
    assert Lookup(h.tree, 0) == None;
    var r := MapSpec(Aspace(h, map[], {}), k, 1, sz, 0, Some(0));
    assert sz !in Span(0, 0, sz, 0);
    assert sz !in r.1.pt;
  }

  lemma OneAndZero(k: nat)
    requires k > 0
    ensures LowBits(1, k) == 1 && LowBits(0, k) == 0
  {
  }

  lemma AddToEmpty(sz: nat)
    ensures var h := Hash([FREE_ENTRY], Leaf); Good(h) && Add(h, 0, 0, sz, 0).0 == Code(VMM_OK)
  {
    var h := Hash([FREE_ENTRY], Leaf);
    assert Lookup(h.tree, 0) == None && FirstFree(h.entry, 0) == Some(0);
  }

  lemma XlatIsPa2Va(h: Hash, a: nat)
    requires Good(h)
    ensures Pa2Va(h, a).None? <==> Xlat(h, a).None?
    ensures Xlat(h, a).Some? ==> Xlat(h, a).value == (Pa2Va(h, a).value.0, Pa2Va(h, a).value.2)
  {
  }

  /** What a call that maps something new does to the hash. */
  lemma MapXlat(s: Aspace, k: nat, pa: nat, size: nat, flags: nat, newVa: Option<nat>, a: nat)
    requires Good(s.h) && MapSpec(s, k, pa, size, flags, newVa).0.Some?
    requires Xlat(s.h, pa - LowBits(pa, k)).None?
    ensures var tpa := pa - LowBits(pa, k);
            Xlat(MapSpec(s, k, pa, size, flags, newVa).1.h, a)
              == if tpa <= a < tpa + RoundUp(size, k) then Some((newVa.value + (a - tpa), flags)) else Xlat(s.h, a)
    ensures newVa.Some? && MapSpec(s, k, pa, size, flags, newVa).0.value == newVa.value + LowBits(pa, k)
  {
    hide Good, Lookup, Add, LowBits, RoundUp, Xlat, MapSpec;
    MapNewIs(s, k, pa, size, flags, newVa);
    AddNewPlain(s.h, pa - LowBits(pa, k), newVa.value, RoundUp(size, k), flags, a);
  }

  lemma MapNewIs(s: Aspace, k: nat, pa: nat, size: nat, flags: nat, newVa: Option<nat>)
    requires Good(s.h) && MapSpec(s, k, pa, size, flags, newVa).0.Some?
    requires Xlat(s.h, pa - LowBits(pa, k)).None?
    ensures newVa.Some? && MapSpec(s, k, pa, size, flags, newVa).0.value == newVa.value + LowBits(pa, k)
    ensures Add(s.h, pa - LowBits(pa, k), newVa.value, RoundUp(size, k), flags)
         == (Code(VMM_OK), MapSpec(s, k, pa, size, flags, newVa).1.h)
  {
    hide Good, Lookup, Add, LowBits, RoundUp, Aligned, Pow2, Span, Range, Xlat, Pa2Va;
    XlatIsPa2Va(s.h, pa - LowBits(pa, k));
  }

  lemma AddNewPlain(h: Hash, pa: nat, va: nat, sz: nat, flags: nat, a: nat)
    requires Good(h) && Xlat(h, pa).None? && Add(h, pa, va, sz, flags).0 == Code(VMM_OK)
    ensures Xlat(Add(h, pa, va, sz, flags).1, a) == if pa <= a < pa + sz then Some((va + (a - pa), flags)) else Xlat(h, a)
  {
    hide Bst, UsedAreListed, ListedAreUsed, Lookup, Insert, Add;
    AddXlat(h, pa, va, sz, flags, a);
  }

  // ----- the address space in place -----

  class AspaceCtrl {
    const k: nat
    const hash: HashCtrl
    var pt: Translation
    var vas: set<nat>

    ghost function Value(): Aspace
      reads this, hash
    {
      Aspace(hash.Value(), pt, vas)
    }

    /** An address space with `count` hash slots and pages of size 2^k. */
    constructor (k: nat, count: nat)
      ensures this.k == k && Inv(Value(), k)
    {
      this.k := k;
      hash := new HashCtrl(count);
      pt, vas := map[], {};
    }

    /** The mapping loop: one page table entry per page. */
    method MapPages(va: nat, pa: nat, sz: nat, flags: nat)
      requires Aligned(sz, k)
      modifies this`pt
      ensures pt == old(pt) + Span(va, pa, sz, flags)
    {
      hide *;
      var done, pageSize := 0, Pow2(k);
      SpanEmpty(va, pa, flags);
      AlignedZero(k);
      while done < sz
        invariant done <= sz && Aligned(done, k)
        invariant pt == old(pt) + Span(va, pa, done, flags)
      {
        AlignedApart(done, sz, k);
        pt := pt + Span(va + done, pa + done, pageSize, flags);
        SpanExtends(old(pt), va, pa, done, pageSize, flags);
        AlignedPow2(k, k);
        AlignedAdd(done, pageSize, k);
        done := done + pageSize;
      }
    }

    /** The unmapping loop. */
    method UnmapPages(va: nat, sz: nat)
      requires Aligned(sz, k)
      modifies this`pt
      ensures pt == old(pt) - Range(va, sz)
    {
      hide Aligned, Pow2, Range;
      var done, pageSize := 0, Pow2(k);
      AlignedZero(k);
      while done < sz
        invariant done <= sz && Aligned(done, k)
        invariant pt == old(pt) - Range(va, done)
      {
        AlignedApart(done, sz, k);
        pt := pt - Range(va + done, pageSize);
        AlignedPow2(k, k);
        AlignedAdd(done, pageSize, k);
        done := done + pageSize;
      }
    }

    /** `host_memmap`. */
    method Memmap(pa: nat, size: nat, flags: nat, newVa: Option<nat>) returns (r: Option<nat>)
      requires Good(Value().h)
      modifies this, hash
      ensures r == MapSpec(old(Value()), k, pa, size, flags, newVa).0
      ensures r.Some? ==> Value() == MapSpec(old(Value()), k, pa, size, flags, newVa).1
    {
      hide Good, Add, Lookup, LowBits, RoundUp, Span, Range;
      var sz := RoundUp(size, k);
      var tpa := pa - LowBits(pa, k);
      var found := hash.FindVa(tpa);
      var va;
      if found.Some? {
        if flags != found.value.2 || found.value.1 < sz {
          return None;
        }
        va := found.value.0 - LowBits(found.value.0, k);
      } else {
        if newVa.None? || LowBits(newVa.value, k) != 0 {
          return None;
        }
        va := newVa.value;
        vas := vas + Range(va, sz);
        MapPages(va, tpa, sz, flags);
      }
      var o := hash.AddEntry(tpa, va, sz, flags);
      if o != Code(VMM_OK) {
        return None;
      }
      r := Some(va + LowBits(pa, k));
    }

    /** `host_memunmap`. */
    method Memunmap(va0: nat, size: nat) returns (o: Outcome)
      requires Good(Value().h)
      modifies this, hash
      ensures o == UnmapSpec(old(Value()), k, va0, size).0
      ensures o.Code? ==> Value() == UnmapSpec(old(Value()), k, va0, size).1
    {
      hide Good, Del, LowBits, RoundUp, Range;
      var sz := RoundUp(size, k);
      var va := va0 - LowBits(va0, k);
      if va !in pt {
        return Code(VMM_EFAIL);
      }
      var rc := hash.DelEntry(pt[va].0, va, sz);
      if rc == Code(VMM_EBUSY) {
        return Code(VMM_OK);
      } else if rc != Code(VMM_OK) {
        return Panic;
      }
      UnmapPages(va, sz);
      vas := vas - Range(va, sz);
      o := Code(VMM_OK);
    }
  }
}
