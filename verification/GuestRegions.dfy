/** Guest regions: the host mappings that tile a region, the two region trees,
    and the lookup of a region by guest address. */
module GuestRegions {
  import opened Arith
  import opened Common
  import opened IntervalTree

  datatype Flag =
    | REAL | VIRTUAL | ALIAS | MEMORY | IO | READONLY | CACHEABLE | BUFFERABLE
    | ISRAM | ISROM | ISDEVICE | ISRESERVED | ISALLOCED | ISCOLORED | ISSHARED

  /** `struct vmm_region_mapping`. */
  datatype Mapping = Mapping(hphys: nat, hostRam: bool)

  /** `struct vmm_region`. */
  datatype Region = Region(
    flags: set<Flag>, gphys: nat, size: nat, alignOrder: nat, mapOrder: nat, maps: seq<Mapping>,
    node: nat, shm: Option<nat>)

  // ----- the mappings of a region -----

  /** `maps_count` of a region. */
  function MapsCount(size: nat, order: nat): nat {
    var n := Shr(size, order);
    if n * Pow2(order) < size then n + 1 else n
  }

  /** `mapping_gphys_offset`. */
  function MapOffset(r: Region, i: nat): nat {
    if |r.maps| <= i then r.size else i * Pow2(r.mapOrder)
  }

  /** `mapping_phys_size`. */
  function MapSize(r: Region, i: nat): int {
    if |r.maps| <= i then 0
    else
      var size := r.size - MapOffset(r, i);
      if size < Pow2(r.mapOrder) then size else Pow2(r.mapOrder)
  }

  predicate Tiled(r: Region) { |r.maps| == MapsCount(r.size, r.mapOrder) }

  lemma CountBounds(size: nat, order: nat, i: nat)
    ensures size <= MapsCount(size, order) * Pow2(order)
    ensures i < MapsCount(size, order) ==> i * Pow2(order) < size
    ensures MapsCount(size, order) == 0 <==> size == 0
  {
    hide Pow2, Shr, LowBits;
    ShrSplit(size, order);
    var n, p := Shr(size, order), Pow2(order);
    assert (n + 1) * p == n * p + p;
    if i < n { LargerQuotient(i, n, p); }
  }

  /** The mappings follow one another without gap or overlap, none is empty,
      and the last ends with the region. */
  lemma MapsTile(r: Region, i: nat)
    requires Tiled(r) && i < |r.maps|
    ensures MapOffset(r, 0) == 0 && MapOffset(r, |r.maps|) == r.size
    ensures MapSize(r, i) > 0 && MapOffset(r, i) + MapSize(r, i) == MapOffset(r, i + 1)
  {
    hide Pow2, MapsCount;
    CountBounds(r.size, r.mapOrder, i);
    CountBounds(r.size, r.mapOrder, i + 1);
    var p := Pow2(r.mapOrder);
    assert (i + 1) * p == i * p + p;
  }

  /** The mapping index computed for an offset is that of the mapping that
      holds the offset. */
  lemma IndexIsBelowCount(r: Region, off: nat)
    requires Tiled(r) && off < r.size
    ensures Shr(off, r.mapOrder) < |r.maps|
    ensures var i := Shr(off, r.mapOrder);
            && MapOffset(r, i) + LowBits(off, r.mapOrder) == off
            && LowBits(off, r.mapOrder) < MapSize(r, i)
  {
    hide Pow2, MapsCount, Shr, LowBits;
    var i, p := Shr(off, r.mapOrder), Pow2(r.mapOrder);
    ShrSplit(off, r.mapOrder);
    CountBounds(r.size, r.mapOrder, i);
    if |r.maps| <= i {
      QuotientMonotone(|r.maps|, i, p);
    }
  }

  lemma QuotientMonotone(a: nat, b: nat, p: nat)
    requires a <= b
    ensures a * p <= b * p
  {
  }

  predicate Inside(r: Region, a: nat) { r.gphys <= a < r.gphys + r.size }

  /** The host address of one guest byte. */
  function HostOf(r: Region, a: nat): nat
    requires Tiled(r) && Inside(r, a)
  {
    IndexIsBelowCount(r, a - r.gphys);
    r.maps[Shr(a - r.gphys, r.mapOrder)].hphys + LowBits(a - r.gphys, r.mapOrder)
  }

  /** `vmm_guest_find_mapping`: host address and the bytes left in the mapping. */
  function FindMapping(r: Region, a: nat): (nat, nat)
    requires Tiled(r)
  {
    if !Inside(r, a) then (0, 0)
    else
      IndexIsBelowCount(r, a - r.gphys);
      var i := Shr(a - r.gphys, r.mapOrder);
      var hphys := r.maps[i].hphys + (a - (r.gphys + MapOffset(r, i)));
      (hphys, r.maps[i].hphys + MapSize(r, i) - hphys)
  }

  /** What is found is the translation of a whole run of guest bytes: byte `k`
      of the run goes to byte `k` behind the host address. */
  lemma FindMappingTranslates(r: Region, a: nat, k: nat)
    requires Tiled(r) && Inside(r, a) && k < FindMapping(r, a).1
    ensures Inside(r, a + k) && HostOf(r, a + k) == FindMapping(r, a).0 + k
  {
    hide Shr, LowBits, Tiled;
    var off, order := a - r.gphys, r.mapOrder;
    var i := Shr(off, order);
    IndexIsBelowCount(r, off);
    MapsTile(r, i);
    OffsetBelow(r, i + 1);
    ShrStep(off, order, k);
  }

  lemma OffsetBelow(r: Region, i: nat)
    requires Tiled(r) && i <= |r.maps|
    ensures MapOffset(r, i) <= r.size
  {
    CountBounds(r.size, r.mapOrder, i);
  }

  /** A byte of the region is always found with at least itself left. */
  lemma FindMappingAvailable(r: Region, a: nat)
    requires Tiled(r)
    ensures FindMapping(r, a).1 > 0 <==> Inside(r, a)
  {
    if Inside(r, a) { IndexIsBelowCount(r, a - r.gphys); }
  }

  // ----- the region trees -----

  /** The two trees and the regions by number. */
  datatype Aspace = Aspace(mem: Tree, io: Tree, regs: map<nat, Region>)

  function ItemOf(id: nat, r: Region): Item { Item(r.gphys, r.gphys + r.size, id) }

  function TreeFor(s: Aspace, flags: set<Flag>): Tree { if IO in flags then s.io else s.mem }

  /** A tree of one address type. */
  ghost predicate TreeOk(s: Aspace, io: bool, t: Tree) {
    && Bst(t)
    && (forall x :: x in Items(t) ==> x.val in s.regs && x == ItemOf(x.val, s.regs[x.val]))
    && (forall id :: id in s.regs && (IO in s.regs[id].flags <==> io) ==> ItemOf(id, s.regs[id]) in Items(t))
    && (forall x :: x in Items(t) && x.val in s.regs ==> (IO in s.regs[x.val].flags <==> io))
  }

  ghost predicate RegionOk(r: Region) {
    r.size > 0 && Tiled(r) && (IO in r.flags <==> MEMORY !in r.flags) && !(REAL in r.flags && ALIAS in r.flags)
  }

  ghost predicate Inv(s: Aspace) {
    && TreeOk(s, false, s.mem) && TreeOk(s, true, s.io)
    && forall id :: id in s.regs ==> RegionOk(s.regs[id])
  }

  const MANIFEST := {REAL, VIRTUAL, ALIAS}

  /** `vmm_guest_find_region` without alias resolution. */
  function FindRegion(s: Aspace, a: nat, flags: set<Flag>): (r: Option<nat>)
  {
    var found := Lookup(TreeFor(s, flags), a);
    if found.None? || found.value.val !in s.regs then None
    else
      var reg := s.regs[found.value.val];
      if flags - MANIFEST <= reg.flags && flags * MANIFEST <= reg.flags then Some(found.value.val) else None
  }

  /** A region that holds the address and has all the flags. */
  ghost predicate Hits(s: Aspace, a: nat, flags: set<Flag>, id: nat) {
    id in s.regs && Inside(s.regs[id], a) && flags <= s.regs[id].flags
  }

  /** The walk down the tree finds a region exactly when a scan over all regions
      of that address type would. */
  lemma FindRegionIsScan(s: Aspace, a: nat, flags: set<Flag>, id: nat)
    requires Inv(s) && (IO in flags || MEMORY in flags)
    ensures FindRegion(s, a, flags) == Some(id) <==> Hits(s, a, flags, id)
  {
    hide Bst, Lookup, RegionOk;
    var t := TreeFor(s, flags);
    assert TreeOk(s, IO in flags, t);
    var found := Lookup(t, a);
    if Hits(s, a, flags, id) {
      RegionKind(s, id);
      LookupIsScan(t, a, ItemOf(id, s.regs[id]));
    }
    assert flags - MANIFEST + flags * MANIFEST == flags;
  }

  lemma RegionKind(s: Aspace, id: nat)
    requires Inv(s) && id in s.regs
    ensures IO in s.regs[id].flags <==> MEMORY !in s.regs[id].flags
  {
  }

  /** Two regions of one address type lie apart. */
  lemma RegionsApart(s: Aspace, i: nat, j: nat, a: nat)
    requires Inv(s) && i in s.regs && j in s.regs && i != j
    requires IO in s.regs[i].flags <==> IO in s.regs[j].flags
    ensures !(Inside(s.regs[i], a) && Inside(s.regs[j], a))
  {
    hide Bst;
    var t := if IO in s.regs[i].flags then s.io else s.mem;
    ItemsApart(t, ItemOf(i, s.regs[i]), ItemOf(j, s.regs[j]));
  }
}
