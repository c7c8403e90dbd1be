/** Adding guest regions from device-tree nodes and deleting them: what a region
    takes, what every failure path and every deletion gives back. */
module GuestAspace {
  import opened Arith
  import opened Common
  import opened IntervalTree
  import opened Frames
  import opened HostRam
  import opened GuestRegions
  import opened GuestRam

  datatype Manifest = RealManifest | VirtualManifest | AliasManifest

  datatype DeviceType =
    | Ram | AllocedRam | ColoredRam | SharedRam
    | Rom | AllocedRom | ColoredRom | SharedRom | OtherDevice

  /** The attributes of a region node; `None` where an attribute is missing or
      its string is none of the known ones. */
  datatype Attrs = Attrs(
    manifest: Option<Manifest>, io: Option<bool>, device: Option<DeviceType>,
    gphys: Option<nat>, hphys: Option<nat>, aphys: Option<nat>, size: Option<nat>,
    firstColor: Option<nat>, numColors: Option<nat>, shm: Option<nat>,
    align: Option<nat>, mapOrder: Option<nat>)

  datatype Shmem = Shmem(size: nat, alignOrder: nat, addr: nat)

  /** What the rest of the hypervisor answers: the colour order and the
      addresses of each colour, the shared memories, whether the heap has room,
      and the results of the device emulator and of the architecture. */
  datatype Env = Env(
    colorOrder: nat, colors: seq<set<nat>>, shms: map<nat, Shmem>, heapOk: bool, probeRc: int, archRc: int)

  /** The address space of a guest with all that its regions hold elsewhere. */
  datatype Guest = Guest(
    aspace: Aspace, memProbe: seq<nat>, ioProbe: seq<nat>, banks: seq<Bank>,
    nodeRefs: multiset<nat>, shmRefs: multiset<nat>, emulated: set<nat>, archRegs: set<nat>)

  // ----- reading the node -----

  predicate IsAlloced(a: Attrs) { a.device == Some(AllocedRam) || a.device == Some(AllocedRom) }

  predicate IsColored(a: Attrs) { a.device == Some(ColoredRam) || a.device == Some(ColoredRom) }

  predicate IsShared(a: Attrs) { a.device == Some(SharedRam) || a.device == Some(SharedRom) }

  /** The host address comes from the node. */
  predicate FromNode(a: Attrs) {
    a.manifest == Some(RealManifest) && !IsAlloced(a) && !IsColored(a) && !IsShared(a)
  }

  function ValueOr(x: Option<nat>, d: nat): nat { if x.Some? then x.value else d }

  /** The alignment order; a shared region has one only with its memory there. */
  function AlignOrder(a: Attrs, e: Env): nat {
    if IsColored(a) then e.colorOrder
    else if IsShared(a) then
      if a.shm.Some? && a.shm.value in e.shms then e.shms[a.shm.value].alignOrder else 0
    else ValueOr(a.align, 0)
  }

  /** `is_region_node_valid`; the sum of the colours is 32 bits wide. */
  predicate NodeValid(a: Attrs, e: Env) {
    && a.manifest.Some? && a.io.Some? && a.device.Some? && a.gphys.Some? && a.size.Some?
    && (FromNode(a) ==> a.hphys.Some?)
    && (a.manifest == Some(AliasManifest) ==> a.aphys.Some?)
    && (IsColored(a) ==>
          && ValueOr(a.numColors, 0) != 0 && ValueOr(a.firstColor, 0) < |e.colors|
          && (ValueOr(a.firstColor, 0) + ValueOr(a.numColors, 0)) % U32_RANGE <= |e.colors|)
    && (IsShared(a) ==> a.shm.Some? && a.shm.value in e.shms && a.size.value <= e.shms[a.shm.value].size)
    && AlignOrder(a, e) < 64
    && Aligned(a.size.value, AlignOrder(a, e))
    && Aligned(a.gphys.value, AlignOrder(a, e))
    && (FromNode(a) ==> Aligned(a.hphys.value, AlignOrder(a, e)))
    && (a.manifest == Some(AliasManifest) ==> Aligned(a.aphys.value, AlignOrder(a, e)))
  }

  /** The flags of the region. */
  function FlagsOf(a: Attrs): set<Flag> {
    var ram := a.device in {Some(Ram), Some(AllocedRam), Some(ColoredRam), Some(SharedRam)};
    var rom := a.device in {Some(Rom), Some(AllocedRom), Some(ColoredRom), Some(SharedRom)};
    var isReal, isIo := a.manifest == Some(RealManifest), a.io == Some(true);
    {if isReal then REAL else if a.manifest == Some(AliasManifest) then ALIAS else VIRTUAL}
    + {if isIo then IO else MEMORY}
    + (if ram then {ISRAM} else if rom then {READONLY, ISROM} else {ISDEVICE})
    + (if a.device in {Some(Ram), Some(Rom)} then {ISRESERVED} else {})
    + (if IsAlloced(a) then {ISALLOCED} else {})
    + (if IsColored(a) then {ISCOLORED} else {})
    + (if IsShared(a) then {ISSHARED} else {})
    + (if isReal && !isIo && ram then {CACHEABLE, BUFFERABLE} else {})
  }

  /** Real RAM or ROM. */
  predicate HasRam(flags: set<Flag>) {
    ALIAS !in flags && VIRTUAL !in flags && (ISRAM in flags || ISROM in flags)
  }

  predicate IsEmulated(flags: set<Flag>) { ISDEVICE in flags && ALIAS !in flags }

  /** The smallest order from `i` on that holds the size. */
  function DefaultOrder(size: nat, i: nat): (r: Option<nat>)
    requires i <= 64
    ensures r.Some? ==> i <= r.value < 64 && size <= Pow2(r.value)
    ensures r.Some? ==> forall k :: i <= k < r.value ==> Pow2(k) < size
    ensures r.None? ==> forall k :: i <= k < 64 ==> Pow2(k) < size
    decreases 64 - i
  {
    if i == 64 then None else if size <= Pow2(i) then Some(i) else DefaultOrder(size, i + 1)
  }

  /** The mapping order, given the default. */
  function MapOrder(a: Attrs, e: Env, flags: set<Flag>, default_: nat): nat {
    var align := AlignOrder(a, e);
    if HasRam(flags) && ISALLOCED in flags then
      if a.mapOrder.Some? && PAGE_SHIFT <= a.mapOrder.value then a.mapOrder.value
      else if PAGE_SHIFT <= align < default_ then align
      else default_
    else if HasRam(flags) && ISCOLORED in flags then align
    else default_
  }

  /** The region before it takes anything, or the error. */
  datatype Prepared = Failed(rc: int) | Ready(r: Region)

  function Identity(gphys: nat, order: nat, n: nat): (r: seq<Mapping>)
    ensures |r| == n && forall i :: 0 <= i < n ==> !r[i].hostRam
  {
    seq(n, i requires 0 <= i < n => Mapping(gphys + i * Pow2(order), false))
  }

  function Prepare(a: Attrs, e: Env, node: nat): (p: Prepared)
    requires NodeValid(a, e)
    ensures p.Failed? ==> p.rc != VMM_OK
  {
    var flags, size := FlagsOf(a), a.size.value;
    if IsColored(a) && a.firstColor.None? then Failed(VMM_EINVALID)
    else
      var d := DefaultOrder(size, PAGE_SHIFT);
      if d.None? then Failed(VMM_EINVALID)
      else
        var order := MapOrder(a, e, flags, d.value);
        var count := MapsCount(size, order);
        if count == 0 || !e.heapOk then Failed(VMM_ENOMEM)
        else
          Ready(Region(flags, a.gphys.value, size, AlignOrder(a, e), order,
                       Identity(a.gphys.value, order, count), node, if IsShared(a) then a.shm else None))
  }

  /** The first mapping of a region whose host address is given. */
  function Seated(r: Region, a: Attrs, e: Env): Region
    requires NodeValid(a, e) && |r.maps| > 0
  {
    var h := if FromNode(a) then a.hphys.value
             else if HasRam(r.flags) && IsShared(a) then e.shms[a.shm.value].addr
             else r.maps[0].hphys;
    r.(maps := r.maps[0 := r.maps[0].(hphys := h)])
  }

  /** How the region gets host RAM, if it does. */
  function HowOf(flags: set<Flag>, a: Attrs, e: Env): Option<How> {
    if !HasRam(flags) then None
    else if ISRESERVED in flags then Some(Reserve)
    else if ISALLOCED in flags then Some(Allocate)
    else if ISCOLORED in flags then
      Some(Colour(e.colorOrder, e.colors, ValueOr(a.firstColor, 0), ValueOr(a.numColors, 0)))
    else None
  }

  lemma PreparedIsTiled(a: Attrs, e: Env, node: nat)
    requires NodeValid(a, e) && Prepare(a, e, node).Ready?
    ensures var r := Prepare(a, e, node).r;
            && Tiled(r) && |r.maps| > 0 && RegionOk(r) && (forall k :: 0 <= k < |r.maps| ==> !r.maps[k].hostRam)
            && (HowOf(r.flags, a, e).Some? ==> HowOk(HowOf(r.flags, a, e).value))
            && Aligned(r.size, r.alignOrder) && r.flags == FlagsOf(a) && r.node == node
  {
    hide Aligned, DefaultOrder, MapsCount, Pow2;
    var r := Prepare(a, e, node).r;
    CountBounds(r.size, r.mapOrder, 0);
  }

  lemma SeatedKeepsShape(r: Region, a: Attrs, e: Env)
    requires NodeValid(a, e) && |r.maps| > 0
    ensures SameButMaps(r, Seated(r, a, e))
    ensures (forall k :: 0 <= k < |r.maps| ==> !r.maps[k].hostRam) ==>
              forall k :: 0 <= k < |r.maps| ==> !Seated(r, a, e).maps[k].hostRam
  {
    hide NodeValid;
  }

  // ----- when the mapping order is below the alignment -----

  /** An allocated region has mappings smaller than its alignment if and only if
      the node asks for them. */
  lemma MapOrderBelowAlignIff(a: Attrs, e: Env, node: nat)
    requires NodeValid(a, e) && Prepare(a, e, node).Ready? && HowOf(FlagsOf(a), a, e) == Some(Allocate)
    ensures var r := Prepare(a, e, node).r;
            && PAGE_SHIFT <= r.mapOrder
            && (r.mapOrder < r.alignOrder <==>
                  a.mapOrder.Some? && PAGE_SHIFT <= a.mapOrder.value < AlignOrder(a, e))
  {
    hide Aligned, Pow2, MapsCount;
    var align, d := AlignOrder(a, e), DefaultOrder(a.size.value, PAGE_SHIFT).value;
    CountBounds(a.size.value, Prepare(a, e, node).r.mapOrder, 0);
    if d < align {
      AlignedZero(align);
      AlignedApart(0, a.size.value, align);
      Pow2Increasing(d, align);
    }
  }

  // ----- adding -----

  ghost predicate Overlaps(s: Aspace, id: nat, r: Region) {
    exists y :: y in Items(TreeFor(s, r.flags)) && Collide(ItemOf(id, r), y)
  }

  /** The RAM step: nothing, or one of the three loops. */
  function TakeRam(banks: seq<Bank>, r: Region, how: Option<How>): (int, Region, seq<Bank>)
    requires Tiled(r) && (how.Some? ==> HowOk(how.value))
  {
    if how.None? then (VMM_OK, r, banks) else Take(banks, r, 0, how.value)
  }

  lemma TakeRamKeepsShape(banks: seq<Bank>, r: Region, how: Option<How>)
    requires Tiled(r) && (how.Some? ==> HowOk(how.value))
    ensures var t := TakeRam(banks, r, how); Tiled(t.1) && SameButMaps(r, t.1)
  {
    hide Take;
    if how.Some? { TakeKeepsShape(banks, r, 0, how.value); }
  }

  function WithTree(s: Aspace, flags: set<Flag>, t: Tree, regs: map<nat, Region>): Aspace {
    if IO in flags then Aspace(s.mem, t, regs) else Aspace(t, s.io, regs)
  }

  function ShmOf(r: Region): multiset<nat> { if r.shm.Some? then multiset{r.shm.value} else multiset{} }

  function EmulatedBy(id: nat, r: Region): set<nat> { if IsEmulated(r.flags) then {id} else {} }

  /** The region in its tree, on the probe list if asked, with its references. */
  function Linked(g: Guest, id: nat, r: Region, t: Tree, probe: bool): Guest {
    Guest(
      WithTree(g.aspace, r.flags, t, g.aspace.regs[id := r]),
      if probe && IO !in r.flags then g.memProbe + [id] else g.memProbe,
      if probe && IO in r.flags then g.ioProbe + [id] else g.ioProbe,
      g.banks, g.nodeRefs + multiset{r.node}, g.shmRefs + ShmOf(r), g.emulated + EmulatedBy(id, r), g.archRegs + {id})
  }

  /** The result of the last steps: emulator, architecture, tree. */
  function FinishRc(s: Aspace, id: nat, r: Region, e: Env): (rc: int)
    ensures rc == VMM_OK ==> Insert(TreeFor(s, r.flags), ItemOf(id, r)).Some?
  {
    if IsEmulated(r.flags) && e.probeRc != VMM_OK then e.probeRc
    else if e.archRc != VMM_OK then e.archRc
    else if Insert(TreeFor(s, r.flags), ItemOf(id, r)).None? then VMM_EINVALID
    else VMM_OK
  }

  /** From the RAM step on. */
  function Occupy(g: Guest, id: nat, r: Region, how: Option<How>, e: Env, probe: bool): (int, Guest)
    requires Tiled(r) && (how.Some? ==> HowOk(how.value))
  {
    var t := TakeRam(g.banks, r, how);
    TakeRamKeepsShape(g.banks, r, how);
    var undone := g.(banks := Give(t.2, t.1, 0));
    var rc := FinishRc(g.aspace, id, r, e);
    if t.0 != VMM_OK then (t.0, undone)
    else if rc != VMM_OK then (rc, undone)
    else
      (VMM_OK, Linked(g.(banks := t.2), id, t.1, Insert(TreeFor(g.aspace, r.flags), ItemOf(id, r)).value, probe))
  }

  /** `region_add`; `id` is the new region. */
  ghost function AddSpec(g: Guest, id: nat, node: nat, a: Attrs, e: Env, probe: bool): (int, Guest) {
    if !NodeValid(a, e) then (VMM_EINVALID, g)
    else
      match Prepare(a, e, node)
      case Failed(rc) => (rc, g)
      case Ready(r) =>
        PreparedIsTiled(a, e, node);
        SeatedKeepsShape(r, a, e);
        if Overlaps(g.aspace, id, r) then (VMM_EINVALID, g)
        else Occupy(g, id, Seated(r, a, e), HowOf(r.flags, a, e), e, probe)
  }

  // ----- deleting -----

  /** The state after `region_del` of a region in its tree. */
  function DelSpec(g: Guest, id: nat, delProbe: bool): Guest
    requires id in g.aspace.regs && Tiled(g.aspace.regs[id])
  {
    var r := g.aspace.regs[id];
    Guest(
      WithTree(g.aspace, r.flags, Erase(TreeFor(g.aspace, r.flags), ItemOf(id, r)), g.aspace.regs - {id}),
      if delProbe && IO !in r.flags then Without(g.memProbe, id) else g.memProbe,
      if delProbe && IO in r.flags then Without(g.ioProbe, id) else g.ioProbe,
      Give(g.banks, r, 0), g.nodeRefs - multiset{r.node}, g.shmRefs - ShmOf(r),
      g.emulated - EmulatedBy(id, r), g.archRegs - {id})
  }

  // ----- what adding and deleting keep -----

  predicate NoRepeats(list: seq<nat>) { forall i, j :: 0 <= i < j < |list| ==> list[i] != list[j] }

  /** A probe list: regions of one address type, each once. */
  ghost predicate ListOk(list: seq<nat>, regs: map<nat, Region>, io: bool) {
    NoRepeats(list) && forall x :: x in list ==> x in regs && (IO in regs[x].flags <==> io)
  }

  ghost predicate EmulatedOk(emulated: set<nat>, regs: map<nat, Region>) {
    forall x :: x in emulated ==> x in regs && IsEmulated(regs[x].flags)
  }

  /** The trees are search trees of disjoint non-empty regions, and nothing is
      registered for a region that is not there. */
  ghost predicate Sound(g: Guest) {
    && Inv(g.aspace)
    && ListOk(g.memProbe, g.aspace.regs, false) && ListOk(g.ioProbe, g.aspace.regs, true)
    && EmulatedOk(g.emulated, g.aspace.regs) && g.archRegs == g.aspace.regs.Keys
    && forall id :: id in g.aspace.regs ==> RamOk(g.aspace.regs[id])
  }

  /** Only real RAM and ROM regions hold host RAM. */
  ghost predicate RamOk(r: Region) {
    HasRam(r.flags) || forall k :: 0 <= k < |r.maps| ==> !r.maps[k].hostRam
  }

  lemma {:induction false} WithoutKeeps(list: seq<nat>, id: nat)
    requires NoRepeats(list)
    ensures NoRepeats(Without(list, id)) && id !in Without(list, id)
    ensures id !in list ==> Without(list, id) == list
    decreases |list|
  {
    if list != [] && list[0] != id {
      WithoutKeeps(list[1..], id);
      var r := Without(list[1..], id);
      forall i | 0 <= i < |r| ensures r[i] != list[0] { assert r[i] in r; }
    }
  }

  lemma {:induction false} WithoutLast(list: seq<nat>, id: nat)
    requires id !in list
    ensures Without(list + [id], id) == list
    decreases |list|
  {
    if list != [] {
      WithoutLast(list[1..], id);
      assert (list + [id])[1..] == list[1..] + [id];
    }
  }

  /** The insertion walk fails exactly where the first check finds an overlap,
      and otherwise the trees stay search trees of disjoint regions. */
  lemma LinkKeepsInv(s: Aspace, id: nat, r: Region)
    requires Inv(s) && id !in s.regs && RegionOk(r)
    ensures var t := Insert(TreeFor(s, r.flags), ItemOf(id, r));
            && (t.None? <==> Overlaps(s, id, r))
            && (t.Some? ==> Inv(WithTree(s, r.flags, t.value, s.regs[id := r])))
  {
    hide Bst, Insert, RegionOk;
    var io, old_ := IO in r.flags, TreeFor(s, r.flags);
    var x := ItemOf(id, r);
    assert TreeOk(s, io, old_);
    InsertKeepsBst(old_, x);
    if Insert(old_, x).Some? {
      var t := Insert(old_, x).value;
      var s' := WithTree(s, r.flags, t, s.regs[id := r]);
      LinkKeepsTree(s, s', io, old_, t, id, r);
      OtherTreeKept(s, s', !io, if io then s.mem else s.io, id, r);
    }
  }

  lemma LinkKeepsTree(s: Aspace, s': Aspace, io: bool, old_: Tree, t: Tree, id: nat, r: Region)
    requires TreeOk(s, io, old_) && id !in s.regs && (IO in r.flags <==> io) && s'.regs == s.regs[id := r]
    requires Bst(t) && Items(t) == Items(old_) + {ItemOf(id, r)}
    ensures TreeOk(s', io, t)
  {
    hide Bst, Items;
  }

  lemma OtherTreeKept(s: Aspace, s': Aspace, io: bool, t: Tree, id: nat, r: Region)
    requires TreeOk(s, io, t) && id !in s.regs && !(IO in r.flags <==> io) && s'.regs == s.regs[id := r]
    ensures TreeOk(s', io, t)
  {
    hide Bst, Items;
  }

  lemma UnlinkKeepsInv(s: Aspace, id: nat)
    requires Inv(s) && id in s.regs
    ensures var r := s.regs[id];
            Inv(WithTree(s, r.flags, Erase(TreeFor(s, r.flags), ItemOf(id, r)), s.regs - {id}))
  {
    hide Bst, Erase, RegionOk;
    var r := s.regs[id];
    var io, old_ := IO in r.flags, TreeFor(s, r.flags);
    EraseKeepsBst(old_, ItemOf(id, r));
    var t := Erase(old_, ItemOf(id, r));
    var s' := WithTree(s, r.flags, t, s.regs - {id});
    UnlinkKeepsTree(s, s', io, old_, t, id);
    UnlinkOther(s, s', !io, if io then s.mem else s.io, id);
  }

  lemma UnlinkKeepsTree(s: Aspace, s': Aspace, io: bool, old_: Tree, t: Tree, id: nat)
    requires TreeOk(s, io, old_) && id in s.regs && (IO in s.regs[id].flags <==> io) && s'.regs == s.regs - {id}
    requires Bst(t) && Items(t) == Items(old_) - {ItemOf(id, s.regs[id])}
    ensures TreeOk(s', io, t)
  {
    hide Bst, Items;
  }

  lemma UnlinkOther(s: Aspace, s': Aspace, io: bool, t: Tree, id: nat)
    requires TreeOk(s, io, t) && id in s.regs && !(IO in s.regs[id].flags <==> io) && s'.regs == s.regs - {id}
    ensures TreeOk(s', io, t)
  {
    hide Bst, Items;
  }

  lemma SameButMapsOk(r: Region, r': Region, id: nat)
    requires SameButMaps(r, r') && RegionOk(r)
    ensures RegionOk(r') && ItemOf(id, r') == ItemOf(id, r) && r'.flags == r.flags
  {
  }

  /** Adding keeps the address space sound, whatever its result. */
  lemma AddKeepsSound(g: Guest, id: nat, node: nat, a: Attrs, e: Env, probe: bool)
    requires Sound(g) && id !in g.aspace.regs
    ensures Sound(AddSpec(g, id, node, a, e, probe).1)
  {
    hide Inv, RegionOk, Take, Give, NodeValid, Prepare, Insert, Overlaps, Seated, HowOf, SameButMaps, Tiled, Items,
         ListOk, EmulatedOk, EmulatedBy, HasRam, FlagsOf;
    if NodeValid(a, e) && Prepare(a, e, node).Ready? {
      PreparedIsTiled(a, e, node);
      var r0 := Prepare(a, e, node).r;
      SeatedKeepsShape(r0, a, e);
      var r := Seated(r0, a, e);
      SameButMapsOk(r0, r, id);
      RegionTiled(r);
      var how := HowOf(r0.flags, a, e);
      TakeRamKeepsShape(g.banks, r, how);
      var r1 := TakeRam(g.banks, r, how).1;
      SameButMapsOk(r, r1, id);
      PlanFacts(a, e, node);
      HowHasRam(a, e);
      NoRamNoMaps(g.banks, r, how);
      LinkKeepsInv(g.aspace, id, r1);
      LinkKeepsRest(g, id, r1, probe);
    }
  }

  lemma LinkKeepsRest(g: Guest, id: nat, r: Region, probe: bool)
    requires Sound(g) && id !in g.aspace.regs && RamOk(r)
    ensures var regs := g.aspace.regs[id := r];
            && ListOk(g.memProbe, regs, false) && ListOk(g.ioProbe, regs, true)
            && (IO !in r.flags ==> ListOk(g.memProbe + [id], regs, false))
            && (IO in r.flags ==> ListOk(g.ioProbe + [id], regs, true))
            && EmulatedOk(g.emulated + EmulatedBy(id, r), regs) && g.archRegs + {id} == regs.Keys
            && forall x :: x in regs ==> RamOk(regs[x])
  {
    hide Inv;
  }

  lemma HowHasRam(a: Attrs, e: Env)
    ensures HowOf(FlagsOf(a), a, e).Some? ==> HasRam(FlagsOf(a))
  {
  }

  lemma RegionTiled(r: Region)
    requires RegionOk(r)
    ensures Tiled(r)
  {
  }

  /** Deleting keeps it sound; a region on a probe list is deleted from there. */
  lemma DelKeepsSound(g: Guest, id: nat, delProbe: bool)
    requires Sound(g) && id in g.aspace.regs && Tiled(g.aspace.regs[id])
    requires !delProbe ==> id !in g.memProbe && id !in g.ioProbe
    ensures Sound(DelSpec(g, id, delProbe))
  {
    hide Inv, Give, Erase, ListOk, EmulatedOk, EmulatedBy, Without;
    UnlinkKeepsInv(g.aspace, id);
    DelKeepsList(g.memProbe, g.aspace.regs, false, id, delProbe);
    DelKeepsList(g.ioProbe, g.aspace.regs, true, id, delProbe);
    DelKeepsEmulated(g.emulated, g.aspace.regs, id);
  }

  lemma DelKeepsList(list: seq<nat>, regs: map<nat, Region>, io: bool, id: nat, del: bool)
    requires ListOk(list, regs, io) && id in regs && (!del ==> id !in list)
    ensures ListOk(if del && (IO in regs[id].flags <==> io) then Without(list, id) else list, regs - {id}, io)
  {
    hide NoRepeats;
    WithoutKeeps(list, id);
  }

  lemma DelKeepsEmulated(emulated: set<nat>, regs: map<nat, Region>, id: nat)
    requires EmulatedOk(emulated, regs) && id in regs
    ensures EmulatedOk(emulated - EmulatedBy(id, regs[id]), regs - {id})
  {
  }

  // ----- all or nothing -----

  /** The region as it stands before the RAM step. */
  function Plan(a: Attrs, e: Env, node: nat): (r: Region)
    requires NodeValid(a, e) && Prepare(a, e, node).Ready?
  {
    PreparedIsTiled(a, e, node);
    Seated(Prepare(a, e, node).r, a, e)
  }

  lemma PlanFacts(a: Attrs, e: Env, node: nat)
    requires NodeValid(a, e) && Prepare(a, e, node).Ready?
    ensures var r := Plan(a, e, node);
            && RegionOk(r) && Tiled(r) && Aligned(r.size, r.alignOrder) && r.flags == FlagsOf(a) && r.node == node
            && SameButMaps(Prepare(a, e, node).r, r)
            && (forall k :: 0 <= k < |r.maps| ==> !r.maps[k].hostRam)
            && (HowOf(r.flags, a, e).Some? ==> HowOk(HowOf(r.flags, a, e).value))
  {
    hide Prepare, Seated, Aligned, NodeValid, HowOf;
    PreparedIsTiled(a, e, node);
    SeatedKeepsShape(Prepare(a, e, node).r, a, e);
    SameButMapsOk(Prepare(a, e, node).r, Plan(a, e, node), 0);
  }

  /** An allocated region whose node asks for mappings below its alignment. */
  predicate AsksSmall(a: Attrs, e: Env) {
    HowOf(FlagsOf(a), a, e) == Some(Allocate) && a.mapOrder.Some? && PAGE_SHIFT <= a.mapOrder.value < AlignOrder(a, e)
  }

  lemma PlanIsEven(a: Attrs, e: Env, node: nat, k: nat)
    requires NodeValid(a, e) && Prepare(a, e, node).Ready? && HowOf(FlagsOf(a), a, e).Some? && !AsksSmall(a, e)
    requires k < |Plan(a, e, node).maps| && Tiled(Plan(a, e, node))
    ensures EvenSize(Plan(a, e, node), k, HowOf(FlagsOf(a), a, e).value)
  {
    hide Aligned, Tiled, EvenSize, Seated, DefaultOrder;
    PlanFacts(a, e, node);
    var r, how := Plan(a, e, node), HowOf(FlagsOf(a), a, e).value;
    match how
    case Reserve => ReserveIsEven(r, k);
    case Allocate =>
      MapOrderBelowAlignIff(a, e, node);
      AllocateIsEven(r, k);
    case Colour(order, _, _, _) =>
      ColourIsEven(r, k, how);
  }

  lemma ReserveIsEven(r: Region, k: nat)
    requires Tiled(r) && k < |r.maps|
    ensures EvenSize(r, k, Reserve)
  {
  }

  /** The banks lie apart and every run granted stays in its bank. */
  ghost predicate InBanks(banks: seq<Bank>, a: Attrs, e: Env, node: nat) {
    NodeValid(a, e) && Prepare(a, e, node).Ready? ==>
      var how := HowOf(FlagsOf(a), a, e);
      PlanFacts(a, e, node);
      how.Some? ==> DisjointBanks(banks) && AllInBank(banks, Plan(a, e, node), 0, how.value)
  }

  /** Giving back undoes the RAM step. */
  lemma RamIsUndone(banks: seq<Bank>, a: Attrs, e: Env, node: nat)
    requires NodeValid(a, e) && Prepare(a, e, node).Ready? && InBanks(banks, a, e, node) && !AsksSmall(a, e)
    ensures Tiled(Plan(a, e, node)) && (HowOf(FlagsOf(a), a, e).Some? ==> HowOk(HowOf(FlagsOf(a), a, e).value))
    ensures var t := TakeRam(banks, Plan(a, e, node), HowOf(FlagsOf(a), a, e));
            Tiled(t.1) && Give(t.2, t.1, 0) == banks
  {
    hide Prepare, Plan, NodeValid, HowOf, Take, Give, Aligned, AllInBank, DisjointBanks, EvenSize, AsksSmall, Tiled;
    PlanFacts(a, e, node);
    var r, how := Plan(a, e, node), HowOf(FlagsOf(a), a, e);
    if how.None? {
      NothingToClear(banks, r, 0);
      GiveIsClearAll(banks, r, 0);
    } else {
      forall k | 0 <= k < |r.maps| ensures EvenSize(r, k, how.value) && !r.maps[k].hostRam {
        PlanIsEven(a, e, node, k);
      }
      GiveUndoesTake(banks, r, how.value);
    }
  }

  /** The node asks for mappings below its alignment and the first of them is
      granted. */
  ghost predicate LosesFrames(g: Guest, id: nat, node: nat, a: Attrs, e: Env) {
    && NodeValid(a, e) && Prepare(a, e, node).Ready? && AsksSmall(a, e)
    && !Overlaps(g.aspace, id, Prepare(a, e, node).r)
    && (PlanFacts(a, e, node);
        PlanHasMaps(a, e, node);
        TakeOne(g.banks, Plan(a, e, node), 0, Allocate).0 == VMM_OK)
  }

  lemma PlanHasMaps(a: Attrs, e: Env, node: nat)
    requires NodeValid(a, e) && Prepare(a, e, node).Ready?
    ensures |Plan(a, e, node).maps| > 0
  {
    PreparedIsTiled(a, e, node);
  }

  /** A failing `region_add` always restores trees, probe lists, references and
      registrations. */
  lemma FailedAddChangesOnlyRam(g: Guest, id: nat, node: nat, a: Attrs, e: Env, probe: bool)
    requires AddSpec(g, id, node, a, e, probe).0 != VMM_OK
    ensures AddSpec(g, id, node, a, e, probe).1 == g.(banks := AddSpec(g, id, node, a, e, probe).1.banks)
  {
    hide Prepare, NodeValid, HowOf, Take, Give, Tiled, FlagsOf;
  }

  /** Small mappings: what a failing `region_add` gives back is not what it took,
      wherever it fails behind the first grant. */
  lemma SmallAddLoses(g: Guest, id: nat, node: nat, a: Attrs, e: Env, probe: bool)
    requires AddSpec(g, id, node, a, e, probe).0 != VMM_OK && LosesFrames(g, id, node, a, e)
    ensures AddSpec(g, id, node, a, e, probe).1.banks != g.banks
  {
    hide Prepare, NodeValid, Take, Give, Tiled, FlagsOf, Aligned, Overlaps, TakeOne, RegionOk;
    PreparedIsTiled(a, e, node);
    PlanFacts(a, e, node);
    PlanHasMaps(a, e, node);
    MapOrderBelowAlignIff(a, e, node);
    RegionNonEmpty(Plan(a, e, node));
    SmallMappingsAreLost(g.banks, Plan(a, e, node));
  }

  /** A failing `region_add` leaves everything as it was, host RAM included, if
      and only if the node does not ask for mappings below its alignment or the
      failure comes before the first of them is granted. */
  lemma AddIsAllOrNothingIff(g: Guest, id: nat, node: nat, a: Attrs, e: Env, probe: bool)
    requires AddSpec(g, id, node, a, e, probe).0 != VMM_OK && InBanks(g.banks, a, e, node)
    ensures AddSpec(g, id, node, a, e, probe).1 == g <==> !LosesFrames(g, id, node, a, e)
  {
    hide AddSpec, LosesFrames, InBanks;
    if LosesFrames(g, id, node, a, e) {
      SmallAddLoses(g, id, node, a, e, probe);
    } else {
      FailedAddRestores(g, id, node, a, e, probe);
    }
  }

  lemma FailedAddRestores(g: Guest, id: nat, node: nat, a: Attrs, e: Env, probe: bool)
    requires AddSpec(g, id, node, a, e, probe).0 != VMM_OK && InBanks(g.banks, a, e, node)
    requires !LosesFrames(g, id, node, a, e)
    ensures AddSpec(g, id, node, a, e, probe).1 == g
  {
    hide Prepare, NodeValid, HowOf, Take, Give, AsksSmall, InBanks, Tiled, FlagsOf, TakeOne, Overlaps;
    if NodeValid(a, e) && Prepare(a, e, node).Ready? && !Overlaps(g.aspace, id, Prepare(a, e, node).r) {
      PreparedIsTiled(a, e, node);
      PlanFacts(a, e, node);
      PlanHasMaps(a, e, node);
      if AsksSmall(a, e) {
        RefusedIsUndone(g.banks, a, e, node);
      } else {
        RamIsUndone(g.banks, a, e, node);
      }
      var t := TakeRam(g.banks, Plan(a, e, node), HowOf(FlagsOf(a), a, e));
      assert g.(banks := Give(t.2, t.1, 0)) == g;
    }
  }

  /** Refused at the first mapping, nothing was taken. */
  lemma RefusedIsUndone(banks: seq<Bank>, a: Attrs, e: Env, node: nat)
    requires NodeValid(a, e) && Prepare(a, e, node).Ready? && AsksSmall(a, e)
    requires Tiled(Plan(a, e, node)) && |Plan(a, e, node).maps| > 0
    requires TakeOne(banks, Plan(a, e, node), 0, Allocate).0 != VMM_OK
    ensures HowOf(FlagsOf(a), a, e) == Some(Allocate)
    ensures var t := TakeRam(banks, Plan(a, e, node), HowOf(FlagsOf(a), a, e));
            Tiled(t.1) && Give(t.2, t.1, 0) == banks
  {
    hide Prepare, NodeValid, Give, Tiled, FlagsOf, TakeOne, RegionOk, Aligned;
    PlanFacts(a, e, node);
    NothingGiven(banks, Plan(a, e, node));
  }

  /** Two pages of allocated RAM aligned to two pages, in page-sized mappings. */
  const SMALL_NODE: Attrs := Attrs(
    Some(RealManifest), Some(false), Some(AllocedRam), Some(0), None, None, Some(2 * PAGE),
    None, None, None, Some(13), Some(PAGE_SHIFT))

  /** The architecture refuses the region. */
  const REFUSING: Env := Env(0, [], map[], true, VMM_OK, VMM_EFAIL)

  /** A guest without regions beside four free frames. */
  const NO_REGIONS: Guest := Guest(
    Aspace(Leaf, Leaf, map[]), [], [], [Bank(0, 4, {}, 4)], multiset{}, multiset{}, {}, {})

  lemma SmallNodeIsLeaky()
    ensures NodeValid(SMALL_NODE, REFUSING) && Prepare(SMALL_NODE, REFUSING, 0).Ready?
    ensures Plan(SMALL_NODE, REFUSING, 0) == LEAKY && HowOf(FlagsOf(SMALL_NODE), SMALL_NODE, REFUSING) == Some(Allocate)
  {
    hide Aligned, Pow2, MapsCount, RoundUp;
    TwoPages();
    PageSize();
    LeakyIsTiled();
    assert FlagsOf(SMALL_NODE) == LEAKY.flags;
    assert DefaultOrder(2 * PAGE, 13) == Some(13);
    assert DefaultOrder(2 * PAGE, PAGE_SHIFT) == Some(13);
    assert MapsCount(2 * PAGE, PAGE_SHIFT) == 2;
    var r := Prepare(SMALL_NODE, REFUSING, 0).r;
    assert r.maps == Identity(0, PAGE_SHIFT, 2) == LEAKY.maps;
    assert Plan(SMALL_NODE, REFUSING, 0).maps == LEAKY.maps;
  }

  /** The addition fails with the architecture's code, and two of the four
      frames stay taken. */
  lemma FailedAddLeaks()
    ensures var r := AddSpec(NO_REGIONS, 0, 0, SMALL_NODE, REFUSING, false);
            r.0 == VMM_EFAIL && r.1.banks != NO_REGIONS.banks
  {
    hide Take, Give, Tiled, Prepare, NodeValid, FlagsOf, Seated;
    SmallNodeIsLeaky();
    SmallMappingsLeak();
    PreparedIsTiled(SMALL_NODE, REFUSING, 0);
  }

  /** The same regions, in trees with the same contents, and the same holdings
      apart from host RAM. */
  ghost predicate SameButRam(g: Guest, h: Guest) {
    && Items(g.aspace.mem) == Items(h.aspace.mem) && Items(g.aspace.io) == Items(h.aspace.io)
    && g.aspace.regs == h.aspace.regs && g.memProbe == h.memProbe && g.ioProbe == h.ioProbe
    && g.nodeRefs == h.nodeRefs && g.shmRefs == h.shmRefs && g.emulated == h.emulated && g.archRegs == h.archRegs
  }

  lemma LinkThenUnlink(g: Guest, id: nat, r: Region, t: Tree, probe: bool)
    requires Sound(g) && id !in g.aspace.regs && RegionOk(r) && Tiled(r)
    requires Insert(TreeFor(g.aspace, r.flags), ItemOf(id, r)) == Some(t)
    ensures var h := Linked(g, id, r, t, probe);
            && h.aspace.regs[id] == r && SameButRam(DelSpec(h, id, probe), g)
            && DelSpec(h, id, probe).banks == Give(h.banks, r, 0)
  {
    hide Insert, Erase, Give, Items, Without, Inv, EmulatedOk, ListOk, EmulatedBy, ShmOf, RegionOk, Tiled;
    EraseAfterInsert(g.aspace, id, r, t);
    UnlistLast(g.memProbe, g.aspace.regs, false, id);
    UnlistLast(g.ioProbe, g.aspace.regs, true, id);
    NewIsUnregistered(g, id, r);
    assert g.aspace.regs[id := r] - {id} == g.aspace.regs;
  }

  lemma EraseAfterInsert(s: Aspace, id: nat, r: Region, t: Tree)
    requires Inv(s) && id !in s.regs && RegionOk(r) && Insert(TreeFor(s, r.flags), ItemOf(id, r)) == Some(t)
    ensures Items(Erase(t, ItemOf(id, r))) == Items(TreeFor(s, r.flags))
  {
    hide Insert, Erase, Bst, Items;
    var old_, x := TreeFor(s, r.flags), ItemOf(id, r);
    assert TreeOk(s, IO in r.flags, old_);
    InsertKeepsBst(old_, x);
    EraseKeepsBst(t, x);
    assert Items(t) - {x} == Items(old_);
  }

  lemma UnlistLast(list: seq<nat>, regs: map<nat, Region>, io: bool, id: nat)
    requires ListOk(list, regs, io) && id !in regs
    ensures Without(list + [id], id) == list && Without(list, id) == list
  {
    hide NoRepeats;
    WithoutLast(list, id);
    WithoutKeeps(list, id);
  }

  lemma NewIsUnregistered(g: Guest, id: nat, r: Region)
    requires Sound(g) && id !in g.aspace.regs
    ensures g.emulated + EmulatedBy(id, r) - EmulatedBy(id, r) == g.emulated && g.archRegs + {id} - {id} == g.archRegs
    ensures g.nodeRefs + multiset{r.node} - multiset{r.node} == g.nodeRefs
    ensures g.shmRefs + ShmOf(r) - ShmOf(r) == g.shmRefs
  {
    hide Inv, ListOk;
  }

  /** What a successful `region_add` has done. */
  lemma AddedIs(g: Guest, id: nat, node: nat, a: Attrs, e: Env, probe: bool) returns (r: Region, tree: Tree)
    requires AddSpec(g, id, node, a, e, probe).0 == VMM_OK
    ensures NodeValid(a, e) && Prepare(a, e, node).Ready? && Tiled(Plan(a, e, node))
    ensures HowOf(FlagsOf(a), a, e).Some? ==> HowOk(HowOf(FlagsOf(a), a, e).value)
    ensures var t := TakeRam(g.banks, Plan(a, e, node), HowOf(FlagsOf(a), a, e));
            && t.0 == VMM_OK && r == t.1 && SameButMaps(Plan(a, e, node), r) && RegionOk(r) && Tiled(r)
            && Insert(TreeFor(g.aspace, r.flags), ItemOf(id, r)) == Some(tree)
            && AddSpec(g, id, node, a, e, probe).1 == Linked(g.(banks := t.2), id, r, tree, probe)
  {
    hide Prepare, NodeValid, HowOf, Take, Give, Tiled, FlagsOf, RegionOk, SameButMaps, Linked, Insert, Overlaps;
    PreparedIsTiled(a, e, node);
    PlanFacts(a, e, node);
    var plan, how := Plan(a, e, node), HowOf(FlagsOf(a), a, e);
    TakeRamKeepsShape(g.banks, plan, how);
    r := TakeRam(g.banks, plan, how).1;
    SameButMapsOk(plan, r, id);
    RegionTiled(r);
    tree := Insert(TreeFor(g.aspace, plan.flags), ItemOf(id, plan)).value;
  }

  lemma RamChangeKeepsSound(g: Guest, banks: seq<Bank>)
    requires Sound(g)
    ensures Sound(g.(banks := banks))
  {
  }

  /** A successful `region_add` followed by `region_del` restores everything but
      host RAM; host RAM too if and only if the node does not ask for mappings
      below the alignment. */
  lemma AddThenDelRestoresIff(g: Guest, id: nat, node: nat, a: Attrs, e: Env, probe: bool)
    requires Sound(g) && id !in g.aspace.regs && AddSpec(g, id, node, a, e, probe).0 == VMM_OK
    requires InBanks(g.banks, a, e, node)
    ensures var h := AddSpec(g, id, node, a, e, probe).1;
            && id in h.aspace.regs && Tiled(h.aspace.regs[id])
            && SameButRam(DelSpec(h, id, probe), g)
            && (DelSpec(h, id, probe).banks == g.banks <==> !AsksSmall(a, e))
  {
    hide Prepare, NodeValid, HowOf, Take, Give, Tiled, FlagsOf, RegionOk, SameButMaps, Insert, AddSpec, Plan,
         InBanks, AsksSmall, Sound, Erase, Without;
    var r, tree := AddedIs(g, id, node, a, e, probe);
    var t := TakeRam(g.banks, Plan(a, e, node), HowOf(FlagsOf(a), a, e));
    RamChangeKeepsSound(g, t.2);
    LinkThenUnlink(g.(banks := t.2), id, r, tree, probe);
    if AsksSmall(a, e) {
      SmallIsLost(g.banks, a, e, node);
    } else {
      RamIsUndone(g.banks, a, e, node);
    }
  }

  lemma SmallIsLost(banks: seq<Bank>, a: Attrs, e: Env, node: nat)
    requires NodeValid(a, e) && Prepare(a, e, node).Ready? && AsksSmall(a, e)
    requires Tiled(Plan(a, e, node)) && (HowOf(FlagsOf(a), a, e).Some? ==> HowOk(HowOf(FlagsOf(a), a, e).value))
    requires TakeRam(banks, Plan(a, e, node), HowOf(FlagsOf(a), a, e)).0 == VMM_OK
    ensures var t := TakeRam(banks, Plan(a, e, node), HowOf(FlagsOf(a), a, e));
            Tiled(t.1) && Give(t.2, t.1, 0) != banks
  {
    hide Prepare, NodeValid, Give, Tiled, FlagsOf, RegionOk, Plan, Aligned, TakeOne;
    PlanFacts(a, e, node);
    PlanHasMaps(a, e, node);
    MapOrderBelowAlignIff(a, e, node);
    RegionNonEmpty(Plan(a, e, node));
    SmallMappingsAreLost(banks, Plan(a, e, node));
  }

  lemma RegionNonEmpty(r: Region)
    requires RegionOk(r)
    ensures r.size > 0
  {
  }

  // ----- runs -----

  datatype Op =
    | AddOp(id: nat, node: nat, attrs: Attrs, env: Env, probe: bool)
    | DelOp(id: nat, delProbe: bool)

  /** New regions are new; only a region that is there is deleted, and one on a
      probe list is taken off it. */
  ghost predicate Possible(g: Guest, op: Op) {
    match op
    case AddOp(id, node, a, e, probe) => id !in g.aspace.regs
    case DelOp(id, delProbe) =>
      && id in g.aspace.regs && Tiled(g.aspace.regs[id])
      && (!delProbe ==> id !in g.memProbe && id !in g.ioProbe)
  }

  ghost function Step(g: Guest, op: Op): Guest
    requires Possible(g, op)
  {
    match op
    case AddOp(id, node, a, e, probe) => AddSpec(g, id, node, a, e, probe).1
    case DelOp(id, delProbe) => DelSpec(g, id, delProbe)
  }

  ghost predicate IsRun(g: Guest, ops: seq<Op>)
    decreases |ops|
  {
    ops == [] || (Possible(g, ops[0]) && IsRun(Step(g, ops[0]), ops[1..]))
  }

  ghost function Exec(g: Guest, ops: seq<Op>): Guest
    requires IsRun(g, ops)
    decreases |ops|
  {
    if ops == [] then g else Exec(Step(g, ops[0]), ops[1..])
  }

  lemma StepKeepsSound(g: Guest, op: Op)
    requires Sound(g) && Possible(g, op)
    ensures Sound(Step(g, op))
  {
    hide Sound, AddSpec, DelSpec, Tiled;
    match op
    case AddOp(id, node, a, e, probe) => AddKeepsSound(g, id, node, a, e, probe);
    case DelOp(id, delProbe) => DelKeepsSound(g, id, delProbe);
  }

  /** Over every run the region trees stay search trees of pairwise disjoint
      non-empty regions, each tiled by its mappings. */
  lemma {:induction false} EveryRunIsSound(g: Guest, ops: seq<Op>)
    requires Sound(g) && IsRun(g, ops)
    ensures Sound(Exec(g, ops))
    decreases |ops|
  {
    hide Sound, Possible, Step;
    if ops != [] {
      StepKeepsSound(g, ops[0]);
      EveryRunIsSound(Step(g, ops[0]), ops[1..]);
    }
  }

  /** The runs of frames granted stay in their banks, and no node asks for
      mappings below its alignment. */
  ghost predicate Fair(g: Guest, op: Op) {
    op.AddOp? ==> InBanks(g.banks, op.attrs, op.env, op.node) && !AsksSmall(op.attrs, op.env)
  }

  ghost predicate FairRun(g: Guest, ops: seq<Op>)
    requires IsRun(g, ops)
    decreases |ops|
  {
    ops == [] || (Fair(g, ops[0]) && FairRun(Step(g, ops[0]), ops[1..]))
  }

  // ----- every frame and reference is accounted for -----

  ghost predicate AllThere(regs: map<nat, Region>, order: seq<nat>) {
    forall i :: 0 <= i < |order| ==> order[i] in regs && Tiled(regs[order[i]])
  }

  /** The runs of frames of the regions, in the order they were added. */
  ghost function GrantsOf(base: seq<Bank>, regs: map<nat, Region>, order: seq<nat>): seq<Grant>
    requires AllThere(regs, order)
    decreases |order|
  {
    if order == [] then []
    else
      var last := |order| - 1;
      GrantsOf(base, regs, order[..last]) + Clears(base, regs[order[last]], 0)
  }

  ghost function NodesOf(regs: map<nat, Region>, order: seq<nat>): multiset<nat>
    requires AllThere(regs, order)
    decreases |order|
  {
    if order == [] then multiset{}
    else NodesOf(regs, order[..|order| - 1]) + multiset{regs[order[|order| - 1]].node}
  }

  ghost function ShmsOf(regs: map<nat, Region>, order: seq<nat>): multiset<nat>
    requires AllThere(regs, order)
    decreases |order|
  {
    if order == [] then multiset{}
    else ShmsOf(regs, order[..|order| - 1]) + ShmOf(regs[order[|order| - 1]])
  }

  /** The frames taken since `base` are exactly those of the regions there are,
      and so are the node and shared memory references. */
  ghost predicate Accounted(base: Guest, g: Guest, order: seq<nat>) {
    && NoRepeats(order) && AllThere(g.aspace.regs, order) && (forall x :: x in g.aspace.regs ==> x in order)
    && Chain(base.banks, GrantsOf(base.banks, g.aspace.regs, order))
    && g.banks == MarkAll(base.banks, GrantsOf(base.banks, g.aspace.regs, order))
    && g.nodeRefs == base.nodeRefs + NodesOf(g.aspace.regs, order)
    && g.shmRefs == base.shmRefs + ShmsOf(g.aspace.regs, order)
  }

  /** Regions that are not listed do not matter. */
  lemma {:induction false} OthersDoNotCount(base: seq<Bank>, regs: map<nat, Region>, regs': map<nat, Region>, order: seq<nat>)
    requires AllThere(regs, order)
    requires forall i :: 0 <= i < |order| ==> order[i] in regs' && regs'[order[i]] == regs[order[i]]
    ensures AllThere(regs', order)
    ensures GrantsOf(base, regs', order) == GrantsOf(base, regs, order)
    ensures NodesOf(regs', order) == NodesOf(regs, order) && ShmsOf(regs', order) == ShmsOf(regs, order)
    decreases |order|
  {
    if order != [] { OthersDoNotCount(base, regs, regs', order[..|order| - 1]); }
  }

  /** What the last region of an order contributes. */
  lemma CountLast(base: seq<Bank>, regs: map<nat, Region>, order: seq<nat>, id: nat)
    requires AllThere(regs, order) && id in regs && Tiled(regs[id])
    ensures AllThere(regs, order + [id])
    ensures GrantsOf(base, regs, order + [id]) == GrantsOf(base, regs, order) + Clears(base, regs[id], 0)
    ensures NodesOf(regs, order + [id]) == NodesOf(regs, order) + multiset{regs[id].node}
    ensures ShmsOf(regs, order + [id]) == ShmsOf(regs, order) + ShmOf(regs[id])
  {
    hide Clears, ShmOf, Tiled;
    var order' := order + [id];
    assert order'[..|order'| - 1] == order && order'[|order'| - 1] == id;
  }

  lemma AddAccounts(base: Guest, g: Guest, order: seq<nat>, id: nat, r: Region, tree: Tree, banks: seq<Bank>, probe: bool)
    requires Accounted(base, g, order) && id !in g.aspace.regs && Tiled(r)
    requires var gs := Clears(base.banks, r, 0); Chain(g.banks, gs) && banks == MarkAll(g.banks, gs)
    ensures Accounted(base, Linked(g.(banks := banks), id, r, tree, probe), order + [id])
  {
    hide Chain, MarkAll, Clears, ShmOf, Tiled, GrantsOf, NodesOf, ShmsOf;
    var regs, regs' := g.aspace.regs, g.aspace.regs[id := r];
    OthersDoNotCount(base.banks, regs, regs', order);
    CountLast(base.banks, regs', order, id);
    MarkAllAppend(base.banks, GrantsOf(base.banks, regs, order), Clears(base.banks, r, 0));
    assert base.nodeRefs + NodesOf(regs, order) + multiset{r.node} == base.nodeRefs + (NodesOf(regs, order) + multiset{r.node});
    assert base.shmRefs + ShmsOf(regs, order) + ShmOf(r) == base.shmRefs + (ShmsOf(regs, order) + ShmOf(r));
  }

  /** A region in the middle of the order. */
  lemma {:induction false} TakeOut(base: seq<Bank>, regs: map<nat, Region>, order: seq<nat>, k: nat)
    returns (before: seq<Grant>, after: seq<Grant>)
    requires AllThere(regs, order) && k < |order|
    ensures var rest := order[..k] + order[k + 1..];
            && AllThere(regs, rest)
            && GrantsOf(base, regs, order) == before + Clears(base, regs[order[k]], 0) + after
            && GrantsOf(base, regs, rest) == before + after
            && NodesOf(regs, order) == NodesOf(regs, rest) + multiset{regs[order[k]].node}
            && ShmsOf(regs, order) == ShmsOf(regs, rest) + ShmOf(regs[order[k]])
    decreases |order|
  {
    hide Clears, ShmOf, Tiled, GrantsOf, NodesOf, ShmsOf;
    var last := |order| - 1;
    var front, id := order[..last], order[last];
    var gs := Clears(base, regs[order[k]], 0);
    assert order == front + [id];
    CountLast(base, regs, front, id);
    if k == last {
      before, after := GrantsOf(base, regs, front), [];
      assert order[..k] + order[k + 1..] == front;
      assert before + gs + [] == before + gs && before + [] == before;
    } else {
      var mid;
      before, mid := TakeOut(base, regs, front, k);
      var rest, more := front[..k] + front[k + 1..], Clears(base, regs[id], 0);
      assert order[..k] + order[k + 1..] == rest + [id];
      CountLast(base, regs, rest, id);
      after := mid + more;
      assert (before + gs + mid) + more == before + gs + (mid + more);
      assert (before + mid) + more == before + (mid + more);
    }
  }

  lemma GiveMiddle(base: seq<Bank>, banks: seq<Bank>, r: Region, before: seq<Grant>, after: seq<Grant>)
    requires Tiled(r)
    requires var all := before + Clears(base, r, 0) + after; Chain(base, all) && banks == MarkAll(base, all)
    ensures Give(banks, r, 0) == MarkAll(base, before + after) && Chain(base, before + after)
  {
    hide Chain, MarkAll, Clears, Tiled, Give;
    var gs := Clears(base, r, 0);
    MarkAllAlike(base, before + gs + after);
    AlikeClears(base, banks, r, 0);
    GiveIsClearAll(banks, r, 0);
    assert before + gs + after == before + (gs + after);
    MarkAllAppend(base, before, gs + after);
    ClearMiddle(MarkAll(base, before), gs, after);
    MarkAllAppend(base, before, after);
  }

  lemma DelOrder(regs: map<nat, Region>, order: seq<nat>, k: nat)
    requires NoRepeats(order) && AllThere(regs, order) && k < |order| && forall x :: x in regs ==> x in order
    ensures var rest := order[..k] + order[k + 1..];
            && NoRepeats(rest) && (forall x :: x in regs - {order[k]} ==> x in rest)
            && forall i :: 0 <= i < |rest| ==> rest[i] in regs - {order[k]}
  {
    hide Tiled;
    var rest := order[..k] + order[k + 1..];
    forall x | x in regs - {order[k]} ensures x in rest {
      var i :| 0 <= i < |order| && order[i] == x;
      assert rest[if i < k then i else i - 1] == x;
    }
  }

  lemma DelAccounts(base: Guest, g: Guest, order: seq<nat>, k: nat, delProbe: bool)
    requires Accounted(base, g, order) && k < |order|
    ensures Accounted(base, DelSpec(g, order[k], delProbe), order[..k] + order[k + 1..])
  {
    hide Chain, MarkAll, Clears, ShmOf, Tiled, Give, Erase, Without, GrantsOf, NodesOf, ShmsOf, NoRepeats;
    var regs, id := g.aspace.regs, order[k];
    var r, rest := regs[id], order[..k] + order[k + 1..];
    var before, after := TakeOut(base.banks, regs, order, k);
    DelOrder(regs, order, k);
    OthersDoNotCount(base.banks, regs, regs - {id}, rest);
    GiveMiddle(base.banks, g.banks, r, before, after);
    DropRef(base.nodeRefs, NodesOf(regs, rest), multiset{r.node});
    DropRef(base.shmRefs, ShmsOf(regs, rest), ShmOf(r));
  }

  lemma DropRef(base: multiset<nat>, a: multiset<nat>, x: multiset<nat>)
    ensures base + (a + x) - x == base + a
  {
  }

  lemma FairAddKeepsFrames(g: Guest, id: nat, node: nat, a: Attrs, e: Env)
    requires !AsksSmall(a, e)
    ensures !LosesFrames(g, id, node, a, e)
  {
  }

  lemma AddStepAccounts(base: Guest, g: Guest, order: seq<nat>, op: Op) returns (order': seq<nat>)
    requires Accounted(base, g, order) && Possible(g, op) && Fair(g, op) && op.AddOp?
    ensures Accounted(base, Step(g, op), order')
  {
    hide Accounted, AddSpec, NodeValid, Prepare, HowOf, FlagsOf, InBanks, AsksSmall, Take, Tiled, RegionOk,
         SameButMaps, Insert, Linked, Chain, MarkAll, Clears, Plan, LosesFrames;
    var AddOp(id, node, a, e, probe) := op;
    if AddSpec(g, id, node, a, e, probe).0 != VMM_OK {
      FairAddKeepsFrames(g, id, node, a, e);
      AddIsAllOrNothingIff(g, id, node, a, e, probe);
      order' := order;
    } else {
      var r, tree := AddedIs(g, id, node, a, e, probe);
      var banks := TakeRam(g.banks, Plan(a, e, node), HowOf(FlagsOf(a), a, e)).2;
      RamStepGrants(base, g, order, a, e, node);
      AddAccounts(base, g, order, id, r, tree, banks, probe);
      order' := order + [id];
    }
  }

  /** The RAM step marks the runs that giving the region back clears. */
  lemma RamStepGrants(base: Guest, g: Guest, order: seq<nat>, a: Attrs, e: Env, node: nat)
    requires Accounted(base, g, order)
    requires NodeValid(a, e) && Prepare(a, e, node).Ready? && InBanks(g.banks, a, e, node) && !AsksSmall(a, e)
    ensures Tiled(Plan(a, e, node)) && (HowOf(FlagsOf(a), a, e).Some? ==> HowOk(HowOf(FlagsOf(a), a, e).value))
    ensures var t := TakeRam(g.banks, Plan(a, e, node), HowOf(FlagsOf(a), a, e));
            && Tiled(t.1)
            && var gs := Clears(base.banks, t.1, 0); Chain(g.banks, gs) && t.2 == MarkAll(g.banks, gs)
  {
    hide Prepare, Plan, NodeValid, HowOf, Take, Give, Aligned, AllInBank, DisjointBanks, EvenSize, AsksSmall, Tiled,
         GrantsOf, NodesOf, ShmsOf, NoRepeats;
    PlanFacts(a, e, node);
    var r, how := Plan(a, e, node), HowOf(FlagsOf(a), a, e);
    MarkAllAlike(base.banks, GrantsOf(base.banks, g.aspace.regs, order));
    if how.None? {
      NothingToClear(base.banks, r, 0);
    } else {
      forall k | 0 <= k < |r.maps| ensures EvenSize(r, k, how.value) && !r.maps[k].hostRam {
        PlanIsEven(a, e, node, k);
      }
      var gs := TakeGrants(g.banks, r, 0, how.value);
      AlikeClears(base.banks, g.banks, Take(g.banks, r, 0, how.value).1, 0);
    }
  }

  lemma StepAccounts(base: Guest, g: Guest, order: seq<nat>, op: Op) returns (order': seq<nat>)
    requires Accounted(base, g, order) && Possible(g, op) && Fair(g, op)
    ensures Accounted(base, Step(g, op), order')
  {
    hide AddSpec, DelSpec, InBanks, AsksSmall, Tiled, GrantsOf, NodesOf, ShmsOf, NoRepeats, Chain, MarkAll;
    match op
    case AddOp(id, node, a, e, probe) =>
      order' := AddStepAccounts(base, g, order, op);
    case DelOp(id, delProbe) =>
      var k :| 0 <= k < |order| && order[k] == id;
      DelAccounts(base, g, order, k, delProbe);
      order' := order[..k] + order[k + 1..];
  }

  /** Over every fair run of additions, successful or not, and deletions in any
      order, the frames and references held are exactly those of the regions
      there are. */
  lemma {:induction false} EveryRunIsAccounted(base: Guest, g: Guest, order: seq<nat>, ops: seq<Op>) returns (order': seq<nat>)
    requires Accounted(base, g, order) && IsRun(g, ops) && FairRun(g, ops)
    ensures Accounted(base, Exec(g, ops), order')
    decreases |ops|
  {
    hide Accounted, Possible, Fair, Step;
    if ops == [] {
      order' := order;
    } else {
      var next := StepAccounts(base, g, order, ops[0]);
      order' := EveryRunIsAccounted(base, Step(g, ops[0]), next, ops[1..]);
    }
  }

  lemma EmptyIsAccounted(g: Guest)
    requires g.aspace.regs == map[]
    ensures Accounted(g, g, [])
  {
    assert GrantsOf(g.banks, g.aspace.regs, []) == [];
  }

  /** A guest that starts without regions and ends without regions has given
      back all host RAM, every reference and every registration. */
  lemma DeletingAllRestores(g: Guest, ops: seq<Op>)
    requires Sound(g) && g.aspace.regs == map[] && IsRun(g, ops) && FairRun(g, ops)
    requires Exec(g, ops).aspace.regs == map[]
    ensures var h := Exec(g, ops); h.banks == g.banks && SameButRam(h, g)
  {
    hide Exec, IsRun, FairRun;
    EveryRunIsSound(g, ops);
    EmptyIsAccounted(g);
    var order := EveryRunIsAccounted(g, g, [], ops);
    var h := Exec(g, ops);
    assert |order| == 0;
    NothingThere(g);
    NothingThere(h);
  }

  lemma HeadIsMember(list: seq<nat>)
    ensures list != [] ==> list[0] in list
  {
  }

  lemma NothingThere(g: Guest)
    requires Sound(g) && g.aspace.regs == map[]
    ensures Items(g.aspace.mem) == {} && Items(g.aspace.io) == {} && g.memProbe == [] && g.ioProbe == []
    ensures g.emulated == {} && g.archRegs == {}
  {
    hide Bst, Items;
    HeadIsMember(g.memProbe);
    HeadIsMember(g.ioProbe);
    assert forall x :: x in Items(g.aspace.mem) ==> x.val in g.aspace.regs;
    assert forall x :: x in Items(g.aspace.io) ==> x.val in g.aspace.regs;
  }

  // ----- the address space in place -----

  lemma NothingGiven(banks: seq<Bank>, r: Region)
    requires Tiled(r) && forall k :: 0 <= k < |r.maps| ==> !r.maps[k].hostRam
    ensures Give(banks, r, 0) == banks
  {
    NothingToClear(banks, r, 0);
    GiveIsClearAll(banks, r, 0);
  }

  lemma PageAlignedStays(banks: seq<Bank>, r: Region, i: nat, how: How)
    requires PageAlignedBanks(banks) && Tiled(r) && i < |r.maps| && HowOk(how)
    ensures PageAlignedBanks(TakeOne(banks, r, i, how).2)
  {
    hide Aligned, RoundUp, FirstFit, Range;
  }

  /** The result of the loop that frees: the code of the last free. */
  function GiveRc(banks: seq<Bank>, r: Region, i: nat, rc: int): int
    requires Tiled(r) && i <= |r.maps|
    decreases |r.maps| - i
  {
    if i == |r.maps| then rc
    else if r.maps[i].hostRam then
      var f := FreeSpec(banks, r.maps[i].hphys, SizeAt(r, i));
      GiveRc(f.1, r, i + 1, f.0)
    else GiveRc(banks, r, i + 1, rc)
  }

  class GuestCtrl {
    const ram: HostRam
    var mem: Tree
    var io: Tree
    var regs: map<nat, Region>
    var memProbe: seq<nat>
    var ioProbe: seq<nat>
    var nodeRefs: multiset<nat>
    var shmRefs: multiset<nat>
    var emulated: set<nat>
    var archRegs: set<nat>

    ghost function Value(): Guest
      reads this, ram
    {
      Guest(Aspace(mem, io, regs), memProbe, ioProbe, ram.banks, nodeRefs, shmRefs, emulated, archRegs)
    }

    constructor (ram: HostRam)
      ensures this.ram == ram && Sound(Value()) && regs == map[]
    {
      this.ram := ram;
      mem, io, regs := Leaf, Leaf, map[];
      memProbe, ioProbe := [], [];
      nodeRefs, shmRefs := multiset{}, multiset{};
      emulated, archRegs := {}, {};
    }

    /** One attempt of the three loops that take host RAM. */
    method TakeMapping(r: Region, i: nat, how: How) returns (rc: int, pa: nat)
      requires Tiled(r) && i < |r.maps| && HowOk(how) && PageAlignedBanks(ram.banks)
      modifies ram
      ensures (rc, pa, ram.banks) == TakeOne(old(ram.banks), r, i, how)
    {
      hide AllocSpec, ReserveSpec, MapsCount;
      pa := r.maps[i].hphys;
      match how
      case Reserve =>
        rc := ram.Reserve(pa, SizeAt(r, i));
      case Allocate =>
        var got := ram.Alloc(SizeAt(r, i), r.alignOrder, None);
        AllocFailsUnchanged(old(ram.banks), SizeAt(r, i), r.alignOrder, None);
        if got.None? {
          rc := VMM_ENOMEM;
        } else {
          rc, pa := VMM_OK, got.value.0;
        }
      case Colour(order, colors, first, num) =>
        var c := ColourAt(first, i, num);
        if |colors| <= c {
          rc := VMM_ENOMEM;
        } else {
          var got := ram.Alloc(Pow2(order), order, Some(colors[c]));
          AllocFailsUnchanged(old(ram.banks), Pow2(order), order, Some(colors[c]));
          if got.None? {
            rc := VMM_ENOMEM;
          } else {
            rc, pa := VMM_OK, got.value.0;
          }
        }
    }

    /** The loop that reserves or allocates host RAM for the mappings. */
    method TakeLoop(plan: Region, how: How) returns (rc: int, r: Region)
      requires Tiled(plan) && HowOk(how) && PageAlignedBanks(ram.banks)
      modifies ram
      ensures (rc, r, ram.banks) == Take(old(ram.banks), plan, 0, how)
    {
      hide TakeOne, PageAlignedBanks, MapsCount;
      r := plan;
      var i := 0;
      while i < |r.maps|
        invariant 0 <= i <= |r.maps| && Tiled(r) && PageAlignedBanks(ram.banks)
        invariant Take(ram.banks, r, i, how) == Take(old(ram.banks), plan, 0, how)
      {
        PageAlignedStays(ram.banks, r, i, how);
        FailsUnchanged(ram.banks, r, i, how);
        var pa;
        rc, pa := TakeMapping(r, i, how);
        if rc != VMM_OK {
          return;
        }
        r := SetMap(r, i, pa);
        i := i + 1;
      }
      rc := VMM_OK;
    }

    /** The loop that frees the host RAM of the mappings. */
    method GiveLoop(r: Region, before: int) returns (rc: int)
      requires Tiled(r)
      modifies ram
      ensures ram.banks == Give(old(ram.banks), r, 0) && rc == GiveRc(old(ram.banks), r, 0, before)
    {
      hide FreeSpec, MapsCount;
      var i := 0;
      rc := before;
      while i < |r.maps|
        invariant 0 <= i <= |r.maps|
        invariant Give(ram.banks, r, i) == Give(old(ram.banks), r, 0)
        invariant GiveRc(ram.banks, r, i, rc) == GiveRc(old(ram.banks), r, 0, before)
      {
        if r.maps[i].hostRam {
          rc := ram.Free(r.maps[i].hphys, SizeAt(r, i));
        }
        i := i + 1;
      }
    }

    /** The RAM step of `region_add`. */
    method TakeStep(plan: Region, how: Option<How>) returns (rc: int, r: Region)
      requires Tiled(plan) && (how.Some? ==> HowOk(how.value)) && PageAlignedBanks(ram.banks)
      modifies ram
      ensures (rc, r, ram.banks) == TakeRam(old(ram.banks), plan, how)
    {
      if how.None? {
        return VMM_OK, plan;
      }
      rc, r := TakeLoop(plan, how.value);
    }

    /** The failure path from the RAM on: host RAM, shared memory, node. */
    method Undo(r: Region, shm: multiset<nat>, node: nat)
      requires Tiled(r) && RamOk(r)
      modifies ram, this`shmRefs, this`nodeRefs
      ensures ram.banks == Give(old(ram.banks), r, 0)
      ensures shmRefs == old(shmRefs) - shm && nodeRefs == old(nodeRefs) - multiset{node}
    {
      hide Give, Tiled;
      if HasRam(r.flags) {
        var rc := GiveLoop(r, VMM_OK);
      } else {
        NothingGiven(ram.banks, r);
      }
      shmRefs := shmRefs - shm;
      nodeRefs := nodeRefs - multiset{node};
    }

    /** The emulator and the architecture take on the region. */
    method Hook(id: nat, r: Region, e: Env) returns (rc: int)
      requires id !in emulated && id !in archRegs
      modifies this`emulated, this`archRegs
      ensures rc == HookRc(r, e)
      ensures rc == VMM_OK ==> emulated == old(emulated) + EmulatedBy(id, r) && archRegs == old(archRegs) + {id}
      ensures rc != VMM_OK ==> emulated == old(emulated) && archRegs == old(archRegs)
    {
      if IsEmulated(r.flags) {
        if e.probeRc != VMM_OK {
          return e.probeRc;
        }
        emulated := emulated + {id};
      }
      if e.archRc != VMM_OK {
        Unprobe(id, r);
        return e.archRc;
      }
      archRegs := archRegs + {id};
      rc := VMM_OK;
    }

    method Unprobe(id: nat, r: Region)
      modifies this`emulated
      ensures emulated == old(emulated) - EmulatedBy(id, r)
    {
      if IsEmulated(r.flags) {
        emulated := emulated - {id};
      }
    }

    /** The insertion walk, the tree and the probe list. */
    method Link(id: nat, r: Region, probe: bool) returns (rc: int)
      modifies this`mem, this`io, this`regs, this`memProbe, this`ioProbe
      ensures var tree := Insert(old(TreeFor(Aspace(mem, io, regs), r.flags)), ItemOf(id, r));
              if tree.None? then
                rc == VMM_EINVALID && unchanged(this)
              else
                && rc == VMM_OK
                && Aspace(mem, io, regs) == WithTree(old(Aspace(mem, io, regs)), r.flags, tree.value, old(regs)[id := r])
                && memProbe == (if probe && IO !in r.flags then old(memProbe) + [id] else old(memProbe))
                && ioProbe == (if probe && IO in r.flags then old(ioProbe) + [id] else old(ioProbe))
    {
      hide Insert;
      var root := if IO in r.flags then io else mem;
      var tree := Insert(root, ItemOf(id, r));
      if tree.None? {
        return VMM_EINVALID;
      }
      if IO in r.flags {
        io := tree.value;
        ioProbe := if probe then ioProbe + [id] else ioProbe;
      } else {
        mem := tree.value;
        memProbe := if probe then memProbe + [id] else memProbe;
      }
      regs := regs[id := r];
      rc := VMM_OK;
    }

    /** Emulator, architecture, tree and probe list, or nothing. */
    method Finish(id: nat, r: Region, e: Env, probe: bool) returns (rc: int)
      requires id !in emulated && id !in archRegs
      modifies this`mem, this`io, this`regs, this`memProbe, this`ioProbe, this`emulated, this`archRegs
      ensures rc == FinishRc(old(Aspace(mem, io, regs)), id, r, e)
      ensures if rc != VMM_OK then unchanged(this) else
                var s, tree := old(Aspace(mem, io, regs)), Insert(old(TreeFor(Aspace(mem, io, regs), r.flags)), ItemOf(id, r));
                && Aspace(mem, io, regs) == WithTree(s, r.flags, tree.value, s.regs[id := r])
                && memProbe == (if probe && IO !in r.flags then old(memProbe) + [id] else old(memProbe))
                && ioProbe == (if probe && IO in r.flags then old(ioProbe) + [id] else old(ioProbe))
                && emulated == old(emulated) + EmulatedBy(id, r) && archRegs == old(archRegs) + {id}
    {
      hide Insert, EmulatedBy, ItemOf, WithTree, TreeFor, IsEmulated;
      rc := Hook(id, r, e);
      if rc != VMM_OK {
        return;
      }
      rc := Link(id, r, probe);
      if rc != VMM_OK {
        archRegs := archRegs - {id};
        Unprobe(id, r);
        UnhookRestores(old(emulated), old(archRegs), id, r);
      }
    }

    /** From the RAM step on; the references were taken before. */
    method OccupyRegion(id: nat, plan: Region, how: Option<How>, e: Env, probe: bool) returns (rc: int)
      requires id !in emulated && id !in archRegs && PageAlignedBanks(ram.banks)
      requires Tiled(plan) && (how.Some? ==> HowOk(how.value) && HasRam(plan.flags))
      requires forall k :: 0 <= k < |plan.maps| ==> !plan.maps[k].hostRam
      requires ShmOf(plan) <= shmRefs && plan.node in nodeRefs
      modifies this, ram
      ensures var g := old(Value()).(nodeRefs := old(nodeRefs) - multiset{plan.node}, shmRefs := old(shmRefs) - ShmOf(plan));
              (rc, Value()) == Occupy(g, id, plan, how, e, probe)
    {
      hide Take, Give, Insert, Tiled, HasRam, EmulatedBy, ShmOf, PageAlignedBanks, FinishRc, WithTree, TreeFor, ItemOf,
           SameButMaps, TakeRam;
      TakeRamKeepsShape(ram.banks, plan, how);
      NoRamNoMaps(ram.banks, plan, how);
      var r;
      rc, r := TakeStep(plan, how);
      SameFacts(old(Aspace(mem, io, regs)), plan, r, id, e);
      RefsBack(old(nodeRefs), old(shmRefs), plan, r);
      if rc == VMM_OK {
        rc := Finish(id, r, e, probe);
      }
      if rc != VMM_OK {
        Undo(r, ShmOf(plan), plan.node);
      }
    }

    /** The loop that computes the default mapping order. */
    method FindOrder(size: nat) returns (r: Option<nat>)
      ensures r == DefaultOrder(size, PAGE_SHIFT)
    {
      hide Pow2;
      var i := PAGE_SHIFT;
      while i < 64
        invariant PAGE_SHIFT <= i <= 64 && DefaultOrder(size, i) == DefaultOrder(size, PAGE_SHIFT)
      {
        if size <= Pow2(i) {
          return Some(i);
        }
        i := i + 1;
      }
      r := None;
    }

    /** The mapping order and the mappings of the region of a valid node. */
    method Build(a: Attrs, e: Env, node: nat) returns (p: Prepared)
      requires NodeValid(a, e) && !(IsColored(a) && a.firstColor.None?)
      ensures p == Prepare(a, e, node)
    {
      hide DefaultOrder, MapsCount, Identity, NodeValid, MapOrder, FlagsOf, AlignOrder;
      NodeHasSize(a, e);
      var d := FindOrder(a.size.value);
      if d.None? {
        return Failed(VMM_EINVALID);
      }
      var flags := FlagsOf(a);
      var order := MapOrder(a, e, flags, d.value);
      var count := MapsCount(a.size.value, order);
      if count == 0 || !e.heapOk {
        return Failed(VMM_ENOMEM);
      }
      p := Ready(Region(flags, a.gphys.value, a.size.value, AlignOrder(a, e), order,
                        Identity(a.gphys.value, order, count), node, if IsShared(a) then a.shm else None));
    }

    /** `region_add`. */
    method RegionAdd(id: nat, node: nat, a: Attrs, e: Env, probe: bool) returns (rc: int)
      requires Sound(Value()) && id !in regs && PageAlignedBanks(ram.banks)
      modifies this, ram
      ensures (rc, Value()) == AddSpec(old(Value()), id, node, a, e, probe)
    {
      hide NodeValid, Prepare, Occupy, Seated, HowOf, FlagsOf, Tiled, RegionOk, Inv, PageAlignedBanks, TreeFor, Items,
           ShmOf, IsShared, HasRam, ListOk, Overlaps, IsColored, ShmFor;
      nodeRefs := nodeRefs + multiset{node};
      assert nodeRefs - multiset{node} == old(nodeRefs);
      if !NodeValid(a, e) {
        nodeRefs := nodeRefs - multiset{node};
        return VMM_EINVALID;
      }
      if IsColored(a) && a.firstColor.None? {
        ColourMissing(a, e, node);
        nodeRefs := nodeRefs - multiset{node};
        return VMM_EINVALID;
      }
      var shm := ShmFor(a);
      shmRefs := shmRefs + shm;
      assert shmRefs - shm == old(shmRefs);
      var p := Build(a, e, node);
      if p.Failed? {
        shmRefs := shmRefs - shm;
        nodeRefs := nodeRefs - multiset{node};
        return p.rc;
      }
      PreparedIsTiled(a, e, node);
      PlanFacts(a, e, node);
      PlanShm(a, e, node, id);
      var clash := Collides(id, p.r);
      if clash {
        shmRefs := shmRefs - shm;
        nodeRefs := nodeRefs - multiset{node};
        return VMM_EINVALID;
      }
      rc := OccupyRegion(id, Seated(p.r, a, e), HowOf(p.r.flags, a, e), e, probe);
    }

    /** `is_region_overlapping`. */
    method Collides(id: nat, r: Region) returns (clash: bool)
      requires Inv(Aspace(mem, io, regs))
      ensures clash <==> Overlaps(Aspace(mem, io, regs), id, r)
    {
      hide Bst, Items;
      var root := if IO in r.flags then io else mem;
      assert TreeOk(Aspace(mem, io, regs), IO in r.flags, root);
      var y := FindCollision(root, ItemOf(id, r));
      clash := y.Some?;
    }

    /** The region leaves its tree, the probe list, the architecture and the
        emulator. */
    method Unlink(id: nat, r: Region, delProbe: bool)
      modifies this`mem, this`io, this`regs, this`memProbe, this`ioProbe, this`emulated, this`archRegs
      ensures var s := old(Aspace(mem, io, regs));
              Aspace(mem, io, regs) == WithTree(s, r.flags, Erase(TreeFor(s, r.flags), ItemOf(id, r)), s.regs - {id})
      ensures memProbe == if delProbe && IO !in r.flags then Without(old(memProbe), id) else old(memProbe)
      ensures ioProbe == if delProbe && IO in r.flags then Without(old(ioProbe), id) else old(ioProbe)
      ensures emulated == old(emulated) - EmulatedBy(id, r) && archRegs == old(archRegs) - {id}
    {
      hide Erase, Without, EmulatedBy;
      if IO in r.flags {
        io := Erase(io, ItemOf(id, r));
        ioProbe := if delProbe then Without(ioProbe, id) else ioProbe;
      } else {
        mem := Erase(mem, ItemOf(id, r));
        memProbe := if delProbe then Without(memProbe, id) else memProbe;
      }
      archRegs := archRegs - {id};
      Unprobe(id, r);
      regs := regs - {id};
    }

    /** `region_del` of a region in its tree. */
    method RegionDel(id: nat, delProbe: bool, archRc: int) returns (rc: int)
      requires Sound(Value()) && id in regs
      modifies this, ram
      ensures Value() == DelSpec(old(Value()), id, delProbe)
      ensures rc == if HasRam(old(regs)[id].flags) then GiveRc(old(ram.banks), old(regs)[id], 0, archRc) else archRc
    {
      hide Give, GiveRc, Erase, Without, Inv, ListOk, HasRam, EmulatedBy, WithTree, TreeFor, ShmOf, EmulatedOk, Tiled;
      var r := regs[id];
      SoundTiled(Value(), id);
      Unlink(id, r, delProbe);
      rc := archRc;
      if HasRam(r.flags) {
        rc := GiveLoop(r, rc);
      } else {
        NothingGiven(ram.banks, r);
      }
      shmRefs := shmRefs - ShmOf(r);
      nodeRefs := nodeRefs - multiset{r.node};
    }
  }

  lemma SoundTiled(g: Guest, id: nat)
    requires Sound(g) && id in g.aspace.regs
    ensures Tiled(g.aspace.regs[id])
  {
  }

  /** The reference on the shared memory of the node. */
  function ShmFor(a: Attrs): multiset<nat> {
    if IsShared(a) && a.shm.Some? then multiset{a.shm.value} else multiset{}
  }

  lemma ColourMissing(a: Attrs, e: Env, node: nat)
    requires NodeValid(a, e) && IsColored(a) && a.firstColor.None?
    ensures Prepare(a, e, node) == Failed(VMM_EINVALID)
  {
  }

  lemma NodeHasSize(a: Attrs, e: Env)
    requires NodeValid(a, e)
    ensures a.size.Some? && a.gphys.Some?
  {
  }

  lemma PlanShm(a: Attrs, e: Env, node: nat, id: nat)
    requires NodeValid(a, e) && Prepare(a, e, node).Ready?
    ensures var r := Prepare(a, e, node).r;
            && |r.maps| > 0 && ShmOf(Seated(r, a, e)) == ShmOf(r) == ShmFor(a) && r.node == node && Seated(r, a, e) == Plan(a, e, node)
            && (HowOf(r.flags, a, e).Some? ==> HasRam(r.flags))
  {
    hide DefaultOrder, Aligned, MapsCount, MapOrder;
    PreparedIsTiled(a, e, node);
  }

  lemma NoRamNoMaps(banks: seq<Bank>, plan: Region, how: Option<How>)
    requires Tiled(plan) && (how.Some? ==> HowOk(how.value) && HasRam(plan.flags))
    requires forall k :: 0 <= k < |plan.maps| ==> !plan.maps[k].hostRam
    ensures var r := TakeRam(banks, plan, how).1;
            RamOk(r)
  {
    hide Take;
    TakeRamKeepsShape(banks, plan, how);
  }

  lemma SameFacts(s: Aspace, r: Region, r': Region, id: nat, e: Env)
    requires SameButMaps(r, r')
    ensures ItemOf(id, r') == ItemOf(id, r) && r'.flags == r.flags && r'.node == r.node && ShmOf(r') == ShmOf(r)
    ensures FinishRc(s, id, r', e) == FinishRc(s, id, r, e)
  {
  }

  function HookRc(r: Region, e: Env): int {
    if IsEmulated(r.flags) && e.probeRc != VMM_OK then e.probeRc else e.archRc
  }

  lemma UnhookRestores(emulated: set<nat>, archRegs: set<nat>, id: nat, r: Region)
    requires id !in emulated && id !in archRegs
    ensures emulated + EmulatedBy(id, r) - EmulatedBy(id, r) == emulated && archRegs + {id} - {id} == archRegs
  {
  }

  lemma RefsBack(nodes: multiset<nat>, shms: multiset<nat>, r: Region, r': Region)
    requires r.node in nodes && ShmOf(r) <= shms && r'.node == r.node && ShmOf(r') == ShmOf(r)
    ensures nodes - multiset{r.node} + multiset{r'.node} == nodes && shms - ShmOf(r) + ShmOf(r') == shms
  {
  }

  lemma AllocFailsUnchanged(banks: seq<Bank>, sz: nat, order: nat, colour: Option<set<nat>>)
    ensures AllocSpec(banks, sz, order, colour).0.None? ==> AllocSpec(banks, sz, order, colour).1 == banks
  {
  }

  lemma FailsUnchanged(banks: seq<Bank>, r: Region, i: nat, how: How)
    requires Tiled(r) && i < |r.maps| && HowOk(how)
    ensures TakeOne(banks, r, i, how).0 != VMM_OK ==> TakeOne(banks, r, i, how).2 == banks
  {
  }
}
