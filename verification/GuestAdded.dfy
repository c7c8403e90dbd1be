/** What an added guest region is: when adding succeeds, where its bytes lie in
    host memory, which frames it has taken, and how it is found. */
module GuestAdded {
  import opened Arith
  import opened Common
  import opened IntervalTree
  import opened Frames
  import opened HostRam
  import opened GuestRegions
  import opened GuestRam
  import opened GuestAspace

  predicate IsReal(a: Attrs) { a.manifest == Some(RealManifest) }

  predicate IsReserved(a: Attrs) { a.device == Some(Ram) || a.device == Some(Rom) }

  // ----- the mappings of a region and its bytes -----

  lemma OneMapping(size: nat, order: nat)
    requires 0 < size <= Pow2(order)
    ensures MapsCount(size, order) == 1
  {
    hide MapsCount;
    CountBounds(size, order, 1);
  }

  /** Byte `k` of mapping `i` lies `k` bytes behind the host address of the
      mapping. */
  lemma HostOfMapping(r: Region, i: nat, k: nat)
    requires Tiled(r) && i < |r.maps| && k < MapSize(r, i)
    ensures var g := r.gphys + MapOffset(r, i) + k;
            Inside(r, g) && HostOf(r, g) == r.maps[i].hphys + k
  {
    hide Pow2, Shr, LowBits, Tiled;
    var off, p := MapOffset(r, i) + k, Pow2(r.mapOrder);
    MapsTile(r, i);
    OffsetBelow(r, i + 1);
    IndexIsBelowCount(r, off);
    ShrSplit(off, r.mapOrder);
    UniqueSplit(i, k, Shr(off, r.mapOrder), LowBits(off, r.mapOrder), p);
  }

  /** A region with one mapping. */
  lemma HostOfSingle(r: Region, k: nat)
    requires Tiled(r) && |r.maps| == 1 && k < r.size
    ensures Inside(r, r.gphys + k) && HostOf(r, r.gphys + k) == r.maps[0].hphys + k
  {
    hide Pow2, Shr, LowBits, Tiled, HostOf;
    MapsTile(r, 0);
    HostOfMapping(r, 0, k);
  }

  /** Only real allocated and coloured regions have more than one mapping. */
  lemma SingleMapping(a: Attrs, e: Env, node: nat)
    requires NodeValid(a, e) && Prepare(a, e, node).Ready? && !(IsReal(a) && (IsAlloced(a) || IsColored(a)))
    ensures |Plan(a, e, node).maps| == 1
  {
    hide Aligned, Pow2, MapsCount;
    PreparedIsTiled(a, e, node);
    var r := Prepare(a, e, node).r;
    OneMapping(r.size, r.mapOrder);
  }

  // ----- the frames a region takes -----

  /** Run `g` of frames, clear in `banks`, is what mapping `i` of the region has
      taken. A reserved mapping keeps its address; an allocated one is aligned; a
      coloured one is one colour page of the colour in turn. */
  ghost predicate Seat(banks: seq<Bank>, r: Region, i: nat, how: How, old_: nat, g: Grant)
    requires Tiled(r) && i < |r.maps| && HowOk(how)
  {
    var h := r.maps[i].hphys;
    && r.maps[i].hostRam && g.bank < |banks|
    && match how
       case Reserve =>
         && h == old_ && g.cnt == SizeToPage(SizeAt(r, i))
         && banks[g.bank].start + g.q * PAGE <= h < banks[g.bank].start + (g.q + 1) * PAGE
       case Allocate =>
         && h == banks[g.bank].start + g.q * PAGE && Aligned(h, r.alignOrder)
         && g.cnt == SizeToPage(RoundUp(SizeAt(r, i), r.alignOrder))
       case Colour(order, match_, first, num) =>
         && h == banks[g.bank].start + g.q * PAGE && Aligned(h, order) && g.cnt == SizeToPage(Pow2(order))
         && (first + i % num) % U32_RANGE < |match_| && h in match_[(first + i % num) % U32_RANGE]
  }

  lemma AllocMarks(banks: seq<Bank>, sz: nat, order: nat, colour: Option<set<nat>>) returns (g: Grant)
    requires AllocSpec(banks, sz, order, colour).0.Some?
    ensures var (got, banks') := AllocSpec(banks, sz, order, colour);
            && Grantable(banks, g) && banks' == MarkAt(banks, g) && g.cnt == SizeToPage(RoundUp(sz, order))
            && got.value.0 == banks[g.bank].start + g.q * PAGE && Aligned(got.value.0, order)
            && (colour.Some? ==> got.value.0 in colour.value)
  {
    hide Aligned, RoundUp, FirstFit, Pow2;
    var rq := Request(order, RoundUp(sz, order), colour);
    var (n, q) := FirstBank(banks, rq, 0).value;
    g := Grant(n, q, FrameCount(rq));
    assert Candidate(banks[n], rq, q);
  }

  lemma FrameHolds(start: nat, pa: nat)
    requires start <= pa
    ensures start + (pa - start) / PAGE * PAGE <= pa < start + ((pa - start) / PAGE + 1) * PAGE
  {
  }

  lemma TakeOneSeats(banks: seq<Bank>, r: Region, i: nat, how: How) returns (g: Grant)
    requires Tiled(r) && i < |r.maps| && HowOk(how) && TakeOne(banks, r, i, how).0 == VMM_OK
    ensures var t := TakeOne(banks, r, i, how);
            var r' := SetMap(r, i, t.1);
            Grantable(banks, g) && t.2 == MarkAt(banks, g) && Tiled(r') && Seat(banks, r', i, how, r.maps[i].hphys, g)
  {
    hide AllocSpec, RoundUp, Pow2, MapSize, Aligned, MapsCount, SizeToPage, Range;
    var r' := SetMap(r, i, TakeOne(banks, r, i, how).1);
    assert SameButMaps(r, r');
    ShapeFacts(r, r', i, how);
    match how
    case Reserve =>
      g := ReserveFrees(banks, r.maps[i].hphys, SizeAt(r, i));
      FrameHolds(banks[g.bank].start, r.maps[i].hphys);
    case Allocate => g := AllocMarks(banks, SizeAt(r, i), r.alignOrder, None);
    case Colour(order, match_, first, num) =>
      g := AllocMarks(banks, Pow2(order), order, Some(match_[ColourAt(first, i, num)]));
      AlignedPow2(order, order);
  }

  lemma SeatElsewhere(banks: seq<Bank>, banks': seq<Bank>, r: Region, r': Region, i: nat, how: How, old_: nat, g: Grant)
    requires Tiled(r) && i < |r.maps| && HowOk(how) && SameButMaps(r, r') && r'.maps[i] == r.maps[i]
    requires Alike(banks, banks') && Seat(banks, r, i, how, old_, g)
    ensures Tiled(r') && Seat(banks', r', i, how, old_, g)
  {
    hide RoundUp, Pow2, Aligned, MapsCount, SizeToPage;
    ShapeFacts(r, r', i, how);
  }

  /** The loop that takes host RAM, where it gets through: one run of frames for
      each mapping, each clear when it is taken. */
  lemma {:induction false} TakeSeats(banks: seq<Bank>, r: Region, i: nat, how: How) returns (gs: seq<Grant>)
    requires Tiled(r) && i <= |r.maps| && HowOk(how) && Take(banks, r, i, how).0 == VMM_OK
    ensures var t := Take(banks, r, i, how);
            && Tiled(t.1) && |t.1.maps| == |r.maps| && |gs| == |r.maps| - i
            && Chain(banks, gs) && t.2 == MarkAll(banks, gs)
            && forall k :: i <= k < |r.maps| ==> Seat(banks, t.1, k, how, r.maps[k].hphys, gs[k - i])
    decreases |r.maps| - i
  {
    hide TakeOne, Seat, Grantable, MarkAt, Tiled, Alike;
    TakeKeepsShape(banks, r, i, how);
    gs := [];
    if i < |r.maps| {
      var one, t := TakeOne(banks, r, i, how), Take(banks, r, i, how);
      var g := TakeOneSeats(banks, r, i, how);
      var r' := SetMap(r, i, one.1);
      var rest := TakeSeats(one.2, r', i + 1, how);
      TakeKeepsShape(one.2, r', i + 1, how);
      gs := [g] + rest;
      assert gs[0] == g && gs[1..] == rest;
      MarkAlike(banks, g);
      forall k | i <= k < |r.maps| ensures Seat(banks, t.1, k, how, r.maps[k].hphys, gs[k - i]) {
        if k == i {
          AlikeSelf(banks);
          SeatElsewhere(banks, banks, r', t.1, i, how, r.maps[i].hphys, g);
        } else {
          AlikeBack(banks, one.2);
          assert SameButMaps(t.1, t.1) && r'.maps[k] == r.maps[k];
          assert Seat(one.2, t.1, k, how, r'.maps[k].hphys, rest[k - (i + 1)]);
          SeatElsewhere(one.2, banks, t.1, t.1, k, how, r.maps[k].hphys, rest[k - i - 1]);
        }
      }
    }
  }

  lemma AlikeSelf(banks: seq<Bank>)
    ensures Alike(banks, banks)
  {
  }

  lemma AlikeBack(a: seq<Bank>, b: seq<Bank>)
    requires Alike(a, b)
    ensures Alike(b, a)
  {
  }

  // ----- the region that was added -----

  /** Each flag, by what the node says. */
  lemma FlagsMatchNode(a: Attrs)
    requires a.manifest.Some? && a.io.Some? && a.device.Some?
    ensures var f, d := FlagsOf(a), a.device.value;
            && (REAL in f <==> a.manifest.value.RealManifest?) && (ALIAS in f <==> a.manifest.value.AliasManifest?)
            && (VIRTUAL in f <==> a.manifest.value.VirtualManifest?)
            && (IO in f <==> a.io.value) && (MEMORY in f <==> !a.io.value)
            && (ISRAM in f <==> d.Ram? || d.AllocedRam? || d.ColoredRam? || d.SharedRam?)
            && (ISROM in f <==> d.Rom? || d.AllocedRom? || d.ColoredRom? || d.SharedRom?)
            && (ISDEVICE in f <==> d.OtherDevice?) && (READONLY in f <==> ISROM in f)
            && (ISRESERVED in f <==> d.Ram? || d.Rom?) && (ISALLOCED in f <==> d.AllocedRam? || d.AllocedRom?)
            && (ISCOLORED in f <==> d.ColoredRam? || d.ColoredRom?) && (ISSHARED in f <==> d.SharedRam? || d.SharedRom?)
            && (CACHEABLE in f <==> REAL in f && MEMORY in f && ISRAM in f) && (BUFFERABLE in f <==> CACHEABLE in f)
  {
    hide FlagsOf;
    TypeFlags(a);
    KindFlags(a);
  }

  lemma TypeFlags(a: Attrs)
    requires a.manifest.Some? && a.io.Some? && a.device.Some?
    ensures var f, d := FlagsOf(a), a.device.value;
            && (REAL in f <==> a.manifest.value.RealManifest?) && (ALIAS in f <==> a.manifest.value.AliasManifest?)
            && (VIRTUAL in f <==> a.manifest.value.VirtualManifest?)
            && (IO in f <==> a.io.value) && (MEMORY in f <==> !a.io.value)
            && (CACHEABLE in f <==> REAL in f && MEMORY in f && (d.Ram? || d.AllocedRam? || d.ColoredRam? || d.SharedRam?))
            && (BUFFERABLE in f <==> CACHEABLE in f)
  {
  }

  lemma KindFlags(a: Attrs)
    requires a.device.Some?
    ensures var f, d := FlagsOf(a), a.device.value;
            && (ISRAM in f <==> d.Ram? || d.AllocedRam? || d.ColoredRam? || d.SharedRam?)
            && (ISROM in f <==> d.Rom? || d.AllocedRom? || d.ColoredRom? || d.SharedRom?)
            && (ISDEVICE in f <==> d.OtherDevice?) && (READONLY in f <==> ISROM in f)
            && (ISRESERVED in f <==> d.Ram? || d.Rom?) && (ISALLOCED in f <==> d.AllocedRam? || d.AllocedRom?)
            && (ISCOLORED in f <==> d.ColoredRam? || d.ColoredRom?) && (ISSHARED in f <==> d.SharedRam? || d.SharedRom?)
  {
  }

  /** The region that a successful addition enters: what the RAM step made of the
      region read from the node. */
  lemma AddedParts(g: Guest, id: nat, node: nat, a: Attrs, e: Env, probe: bool) returns (r: Region)
    requires AddSpec(g, id, node, a, e, probe).0 == VMM_OK
    ensures NodeValid(a, e) && Prepare(a, e, node).Ready? && Tiled(Plan(a, e, node))
    ensures HowOf(FlagsOf(a), a, e).Some? ==> HowOk(HowOf(FlagsOf(a), a, e).value)
    ensures var g' := AddSpec(g, id, node, a, e, probe).1;
            var t := TakeRam(g.banks, Plan(a, e, node), HowOf(FlagsOf(a), a, e));
            && t.0 == VMM_OK && r == t.1 && SameButMaps(Plan(a, e, node), r) && RegionOk(r) && Tiled(r)
            && g'.aspace.regs == g.aspace.regs[id := r] && g'.banks == t.2
  {
    hide Take, Give, Insert, Tiled, RegionOk, FlagsOf, AddSpec, HowOf, NodeValid, Prepare, Plan, TakeRam, SameButMaps;
    var tree;
    r, tree := AddedIs(g, id, node, a, e, probe);
  }

  /** Address, size, alignment and references of an added region are those of the
      node, and it is aligned as the node asks. */
  lemma AddedRegion(g: Guest, id: nat, node: nat, a: Attrs, e: Env, probe: bool) returns (r: Region)
    requires AddSpec(g, id, node, a, e, probe).0 == VMM_OK
    ensures var g' := AddSpec(g, id, node, a, e, probe).1;
            && g'.aspace.regs == g.aspace.regs[id := r] && RegionOk(r) && Tiled(r)
            && a.gphys == Some(r.gphys) && a.size == Some(r.size) && r.node == node && r.flags == FlagsOf(a)
            && r.shm == (if IsShared(a) then a.shm else None)
            && (IsColored(a) ==> r.alignOrder == e.colorOrder)
            && (IsShared(a) ==> a.shm.Some? && a.shm.value in e.shms && r.alignOrder == e.shms[a.shm.value].alignOrder)
            && (!IsColored(a) && !IsShared(a) ==> r.alignOrder == if a.align.Some? then a.align.value else 0)
            && Aligned(r.gphys, r.alignOrder) && Aligned(r.size, r.alignOrder)
            && (FromNode(a) ==> a.hphys.Some? && Aligned(a.hphys.value, r.alignOrder))
            && (a.manifest == Some(AliasManifest) ==> a.aphys.Some? && Aligned(a.aphys.value, r.alignOrder))
            && (IsShared(a) ==> r.size <= e.shms[a.shm.value].size)
            && (IsColored(a) ==> ValueOr(a.numColors, 0) > 0 && a.firstColor.Some? && a.firstColor.value < |e.colors|)
  {
    hide Take, Give, Aligned, Tiled, RegionOk, FlagsOf, DefaultOrder, MapsCount, MapOrder, AddSpec, HowOf, TakeRam;
    r := AddedParts(g, id, node, a, e, probe);
    PlanFacts(a, e, node);
  }

  /** What an added region is registered with: a reference on its node and on its
      shared memory, the architecture, the emulator if it is a device and no
      alias, and, if asked, the end of the probe list of its address type. */
  lemma AddedRegistrations(g: Guest, id: nat, node: nat, a: Attrs, e: Env, probe: bool)
    requires AddSpec(g, id, node, a, e, probe).0 == VMM_OK
    ensures var g' := AddSpec(g, id, node, a, e, probe).1;
            && a.io.Some?
            && g'.nodeRefs == g.nodeRefs + multiset{node}
            && g'.shmRefs == g.shmRefs + (if IsShared(a) then multiset{ValueOr(a.shm, 0)} else multiset{})
            && g'.archRegs == g.archRegs + {id}
            && g'.emulated == g.emulated
                 + (if a.device == Some(OtherDevice) && a.manifest != Some(AliasManifest) then {id} else {})
            && g'.memProbe == (if probe && !a.io.value then g.memProbe + [id] else g.memProbe)
            && g'.ioProbe == (if probe && a.io.value then g.ioProbe + [id] else g.ioProbe)
  {
    hide Take, Give, Insert, Tiled, RegionOk, FlagsOf, AddSpec, HowOf, NodeValid, Prepare, Plan, TakeRam, SameButMaps, Aligned;
    var r, tree := AddedIs(g, id, node, a, e, probe);
    var r2 := AddedRegion(g, id, node, a, e, probe);
    assert g.aspace.regs[id := r][id] == g.aspace.regs[id := r2][id];
    NodeIsComplete(a, e);
    FlagsMatchNode(a);
  }

  /** Where the bytes of a region with a given place lie: at the host address of
      the node, in the shared memory, or, for regions that are not real, at their
      own address. */
  lemma AddedHost(g: Guest, id: nat, node: nat, a: Attrs, e: Env, probe: bool, k: nat) returns (r: Region)
    requires AddSpec(g, id, node, a, e, probe).0 == VMM_OK && a.size.Some? && k < a.size.value
    requires !(IsReal(a) && (IsAlloced(a) || IsColored(a)))
    ensures AddSpec(g, id, node, a, e, probe).1.aspace.regs == g.aspace.regs[id := r]
    ensures Tiled(r) && Inside(r, r.gphys + k) && a.gphys == Some(r.gphys)
    ensures IsReal(a) && IsShared(a) ==>
              a.shm.Some? && a.shm.value in e.shms && HostOf(r, r.gphys + k) == e.shms[a.shm.value].addr + k
    ensures IsReal(a) && !IsShared(a) ==> a.hphys.Some? && HostOf(r, r.gphys + k) == a.hphys.value + k
    ensures !IsReal(a) ==> HostOf(r, r.gphys + k) == r.gphys + k
  {
    hide Give, Insert, Aligned, Tiled, RegionOk, AddSpec, HostOf, Take, Prepare, Plan, NodeValid, FlagsOf, HowOf, TakeRam,
         SameButMaps;
    r := AddedRegion(g, id, node, a, e, probe);
    var r2 := AddedParts(g, id, node, a, e, probe);
    assert g.aspace.regs[id := r][id] == g.aspace.regs[id := r2][id];
    NodeIsComplete(a, e);
    HowIsTaken(a, e);
    SingleMapping(a, e, node);
    SeatOfPlan(a, e, node);
    FirstKept(g.banks, Plan(a, e, node), HowOf(FlagsOf(a), a, e));
    HostOfSingle(r, k);
  }

  /** The host address of the first mapping before the RAM step. */
  lemma SeatOfPlan(a: Attrs, e: Env, node: nat)
    requires NodeValid(a, e) && Prepare(a, e, node).Ready?
    ensures |Plan(a, e, node).maps| > 0
    ensures var h := Plan(a, e, node).maps[0].hphys;
            && (IsReal(a) && IsShared(a) ==> h == e.shms[a.shm.value].addr)
            && (IsReal(a) && !IsAlloced(a) && !IsColored(a) && !IsShared(a) ==> h == a.hphys.value)
            && (!IsReal(a) ==> h == a.gphys.value)
  {
    hide Aligned, DefaultOrder, MapsCount, Pow2, MapOrder;
    PreparedIsTiled(a, e, node);
    FlagsMatchNode(a);
    assert 0 * Pow2(Prepare(a, e, node).r.mapOrder) == 0;
  }

  /** Neither a reservation nor no RAM at all moves the first mapping. */
  lemma FirstKept(banks: seq<Bank>, r: Region, how: Option<How>)
    requires Tiled(r) && |r.maps| == 1 && (how.Some? ==> HowOk(how.value)) && TakeRam(banks, r, how).0 == VMM_OK
    ensures how.None? || how == Some(Reserve) ==>
              |TakeRam(banks, r, how).1.maps| == 1 && TakeRam(banks, r, how).1.maps[0].hphys == r.maps[0].hphys
  {
    hide Tiled, Seat, Take;
    if how == Some(Reserve) {
      var gs := TakeSeats(banks, r, 0, Reserve);
      SeatReserved(banks, TakeRam(banks, r, how).1, r.maps[0].hphys, gs[0]);
    }
  }

  lemma SeatReserved(banks: seq<Bank>, r: Region, old_: nat, g: Grant)
    requires Tiled(r) && 0 < |r.maps| && Seat(banks, r, 0, Reserve, old_, g)
    ensures r.maps[0].hphys == old_
  {
  }

  /** How a real RAM or ROM region gets its frames, by its device type. */
  function HowTaken(a: Attrs, e: Env): How {
    if IsAlloced(a) then Allocate
    else if IsColored(a) then Colour(e.colorOrder, e.colors, ValueOr(a.firstColor, 0), ValueOr(a.numColors, 0))
    else Reserve
  }

  lemma HowIsTaken(a: Attrs, e: Env)
    requires a.manifest.Some? && a.io.Some? && a.device.Some?
    ensures HowOf(FlagsOf(a), a, e) ==
      if IsReal(a) && (IsReserved(a) || IsAlloced(a) || IsColored(a)) then Some(HowTaken(a, e)) else None
  {
    FlagsMatchNode(a);
  }

  /** The frames of a real reserved, allocated or coloured region: for each
      mapping a run that was clear, taken at the address the mapping has, and no
      other frame changes. */
  lemma AddedFrames(g: Guest, id: nat, node: nat, a: Attrs, e: Env, probe: bool) returns (r: Region, gs: seq<Grant>)
    requires AddSpec(g, id, node, a, e, probe).0 == VMM_OK
    requires IsReal(a) && (IsReserved(a) || IsAlloced(a) || IsColored(a))
    ensures AddSpec(g, id, node, a, e, probe).1.aspace.regs == g.aspace.regs[id := r]
    ensures Chain(g.banks, gs) && AddSpec(g, id, node, a, e, probe).1.banks == MarkAll(g.banks, gs)
    ensures Tiled(r) && HowOk(HowTaken(a, e)) && |gs| == |r.maps|
    ensures IsAlloced(a) || IsColored(a) ==>
              forall i :: 0 <= i < |gs| ==> Seat(g.banks, r, i, HowTaken(a, e), 0, gs[i])
    ensures IsReserved(a) ==>
              |gs| == 1 && a.hphys.Some? && Seat(g.banks, r, 0, Reserve, a.hphys.value, gs[0])
  {
    hide Take, Give, Insert, Aligned, Tiled, RegionOk, FlagsOf, HowOf, AddSpec, Seat, Chain, MarkAll, NodeValid, Prepare, Plan;
    r := AddedParts(g, id, node, a, e, probe);
    NodeIsComplete(a, e);
    HowIsTaken(a, e);
    var plan, how := Plan(a, e, node), HowTaken(a, e);
    gs := TakeSeats(g.banks, plan, 0, how);
    if how.Reserve? {
      SingleMapping(a, e, node);
      SeatOfPlan(a, e, node);
    } else {
      forall i | 0 <= i < |gs| ensures Seat(g.banks, r, i, how, 0, gs[i]) {
        SeatAnywhere(g.banks, r, i, how, plan.maps[i].hphys, gs[i]);
      }
    }
  }

  lemma NodeIsComplete(a: Attrs, e: Env)
    requires NodeValid(a, e)
    ensures a.manifest.Some? && a.io.Some? && a.device.Some? && a.size.Some? && a.gphys.Some?
    ensures IsReal(a) && !IsAlloced(a) && !IsColored(a) && !IsShared(a) ==> a.hphys.Some?
    ensures IsShared(a) ==> a.shm.Some? && a.shm.value in e.shms
  {
  }

  lemma SeatAnywhere(banks: seq<Bank>, r: Region, i: nat, how: How, old_: nat, g: Grant)
    requires Tiled(r) && i < |r.maps| && HowOk(how) && !how.Reserve? && Seat(banks, r, i, how, old_, g)
    ensures Seat(banks, r, i, how, 0, g)
  {
  }

  /** No other region takes frames. */
  lemma AddedWithoutFrames(g: Guest, id: nat, node: nat, a: Attrs, e: Env, probe: bool)
    requires AddSpec(g, id, node, a, e, probe).0 == VMM_OK
    requires !(IsReal(a) && (IsReserved(a) || IsAlloced(a) || IsColored(a)))
    ensures AddSpec(g, id, node, a, e, probe).1.banks == g.banks
  {
    hide Take, Give, Insert, Aligned, Tiled, RegionOk, FlagsOf, HowOf, AddSpec, NodeValid, Prepare, Plan;
    var r := AddedParts(g, id, node, a, e, probe);
    NodeIsComplete(a, e);
    HowIsTaken(a, e);
  }

  // ----- when adding succeeds -----

  /** Nodes that are valid: with type, guest address and size, aligned to an order
      below 64, and with what their kind needs. */
  lemma ValidNodes(a: Attrs, e: Env, order: nat)
    requires a.manifest.Some? && a.io.Some? && a.device.Some? && a.gphys.Some? && a.size.Some? && order < 64
    requires Aligned(a.size.value, order) && Aligned(a.gphys.value, order)
    requires a.manifest.value.AliasManifest? ==> a.aphys.Some? && Aligned(a.aphys.value, order)
    requires match a.device.value
             case ColoredRam | ColoredRom =>
               && order == e.colorOrder && a.firstColor.Some? && a.numColors.Some? && 0 < a.numColors.value
               && a.firstColor.value + a.numColors.value <= |e.colors| < U32_RANGE
             case SharedRam | SharedRom =>
               && a.shm.Some? && a.shm.value in e.shms && order == e.shms[a.shm.value].alignOrder
               && a.size.value <= e.shms[a.shm.value].size
             case AllocedRam | AllocedRom => a.align == Some(order) || (a.align == None && order == 0)
             case _ =>
               && (a.align == Some(order) || (a.align == None && order == 0))
               && (a.manifest.value.RealManifest? ==> a.hphys.Some? && Aligned(a.hphys.value, order))
    ensures NodeValid(a, e) && AlignOrder(a, e) == order
  {
    hide Aligned;
  }

  /** The mapping order: the smallest, from a page on, that holds the region, `d`;
      for real allocated regions the order the node asks for, if it is at least a
      page, or else a smaller alignment of at least a page; for real coloured ones
      the colour order. */
  lemma MapOrderIs(a: Attrs, e: Env, node: nat) returns (d: nat)
    requires NodeValid(a, e) && Prepare(a, e, node).Ready?
    ensures PAGE_SHIFT <= d < 64 && a.size.value <= Pow2(d) && (d == PAGE_SHIFT || Pow2(d - 1) < a.size.value)
    ensures var align := AlignOrder(a, e);
            Prepare(a, e, node).r.mapOrder ==
              if IsReal(a) && IsAlloced(a) then
                if a.mapOrder.Some? && PAGE_SHIFT <= a.mapOrder.value then a.mapOrder.value
                else if PAGE_SHIFT <= align then (if align < d then align else d)
                else d
              else if IsReal(a) && IsColored(a) then e.colorOrder
              else d
  {
    hide Aligned, Pow2, MapsCount;
    FlagsMatchNode(a);
    d := DefaultOrder(a.size.value, PAGE_SHIFT).value;
  }

  /** A region of the same address type shares an address with `[gphys, gphys + size)`. */
  ghost predicate Taken(s: Aspace, io: bool, gphys: nat, size: nat) {
    exists j, x: nat :: j in s.regs && (IO in s.regs[j].flags <==> io) && Inside(s.regs[j], x) && gphys <= x < gphys + size
  }

  lemma OverlapsIsTaken(s: Aspace, id: nat, r: Region)
    requires Inv(s) && r.size > 0
    ensures Overlaps(s, id, r) <==> Taken(s, IO in r.flags, r.gphys, r.size)
  {
    hide Bst, Items, Tiled;
    var t := TreeFor(s, r.flags);
    assert TreeOk(s, IO in r.flags, t);
    if Overlaps(s, id, r) {
      var y :| y in Items(t) && Collide(ItemOf(id, r), y);
      var q := s.regs[y.val];
      assert RegionOk(q);
      var x := if q.gphys < r.gphys then r.gphys else q.gphys;
      assert Inside(q, x);
    }
    if j, x: nat :| j in s.regs && (IO in s.regs[j].flags <==> IO in r.flags) && Inside(s.regs[j], x)
                    && r.gphys <= x < r.gphys + r.size {
      assert ItemOf(j, s.regs[j]) in Items(t);
    }
  }

  /** When a valid node can be prepared. */
  lemma PrepareAnswers(a: Attrs, e: Env, node: nat)
    requires NodeValid(a, e)
    ensures var p := Prepare(a, e, node);
            if (IsColored(a) && a.firstColor.None?) || Pow2(63) < a.size.value then p == Failed(VMM_EINVALID)
            else if a.size.value == 0 || !e.heapOk then p == Failed(VMM_ENOMEM)
            else p.Ready? && p.r.gphys == a.gphys.value && p.r.size == a.size.value
  {
    hide Aligned, Pow2, MapsCount, MapOrder, FlagsOf;
    var d := DefaultOrder(a.size.value, PAGE_SHIFT);
    if d.Some? {
      Pow2Monotone(d.value, 63);
      CountBounds(a.size.value, MapOrder(a, e, FlagsOf(a), d.value), 0);
    } else {
      assert Pow2(63) < a.size.value;
    }
  }

  /** The answer of `region_add`: each way to fail, in the order of the checks,
      and success when none applies. */
  lemma AddAnswers(g: Guest, id: nat, node: nat, a: Attrs, e: Env, probe: bool)
    requires Sound(g) && id !in g.aspace.regs
    ensures var rc := AddSpec(g, id, node, a, e, probe).0;
            if !NodeValid(a, e) then rc == VMM_EINVALID
            else if (IsColored(a) && a.firstColor.None?) || Pow2(63) < a.size.value then rc == VMM_EINVALID
            else if a.size.value == 0 || !e.heapOk then rc == VMM_ENOMEM
            else if Taken(g.aspace, a.io.value, a.gphys.value, a.size.value) then rc == VMM_EINVALID
            else
              && Prepare(a, e, node).Ready? && Tiled(Plan(a, e, node))
              && (HowOf(FlagsOf(a), a, e).Some? ==> HowOk(HowOf(FlagsOf(a), a, e).value))
              && var t := TakeRam(g.banks, Plan(a, e, node), HowOf(FlagsOf(a), a, e));
                 rc == if t.0 != VMM_OK then t.0
                       else if a.device == Some(OtherDevice) && a.manifest != Some(AliasManifest) && e.probeRc != VMM_OK
                       then e.probeRc
                       else e.archRc
  {
    hide Prepare, Plan, NodeValid, HowOf, Take, Give, Tiled, FlagsOf, RegionOk, Overlaps, Taken, TakeRam, Pow2, Inv, Insert,
         ListOk, EmulatedOk, Linked, Seated;
    if NodeValid(a, e) {
      NodeIsComplete(a, e);
      PrepareAnswers(a, e, node);
      if Prepare(a, e, node).Ready? {
        var r := Prepare(a, e, node).r;
        PreparedIsTiled(a, e, node);
        PlanFacts(a, e, node);
        FlagsMatchNode(a);
        RegionNonEmpty(r);
        OverlapsIsTaken(g.aspace, id, r);
        PlanIsSeated(a, e, node);
        SameButMapsOk(r, Plan(a, e, node), id);
        OverlapsSame(g.aspace, id, r, Plan(a, e, node));
        LinkKeepsInv(g.aspace, id, Plan(a, e, node));
      }
    }
  }

  lemma PlanIsSeated(a: Attrs, e: Env, node: nat)
    requires NodeValid(a, e) && Prepare(a, e, node).Ready?
    ensures |Prepare(a, e, node).r.maps| > 0 && Plan(a, e, node) == Seated(Prepare(a, e, node).r, a, e)
  {
    PreparedIsTiled(a, e, node);
  }

  lemma OverlapsSame(s: Aspace, id: nat, r: Region, r': Region)
    requires ItemOf(id, r') == ItemOf(id, r) && r'.flags == r.flags
    ensures Overlaps(s, id, r') <==> Overlaps(s, id, r)
  {
  }

  // ----- how regions are found -----

  /** An added region is found at each of its addresses by the flags of the node,
      and nothing changes anywhere else. */
  lemma AddedIsFound(g: Guest, id: nat, node: nat, a: Attrs, e: Env, probe: bool, x: nat, wanted: set<Flag>)
    requires Sound(g) && id !in g.aspace.regs && AddSpec(g, id, node, a, e, probe).0 == VMM_OK
    requires IO in wanted || MEMORY in wanted
    ensures a.gphys.Some? && a.size.Some? && a.io.Some?
    ensures var s, s' := g.aspace, AddSpec(g, id, node, a, e, probe).1.aspace;
            if a.gphys.value <= x < a.gphys.value + a.size.value && (IO in wanted <==> a.io.value) then
              FindRegion(s', x, wanted) == if wanted <= FlagsOf(a) then Some(id) else None
            else FindRegion(s', x, wanted) == FindRegion(s, x, wanted)
  {
    hide Inv, NodeValid, Prepare, Plan, FlagsOf, HowOf, Take, Give, Tiled, RegionOk, FindRegion, AddSpec, ListOk, EmulatedOk;
    var r := AddedRegion(g, id, node, a, e, probe);
    var parts := AddedParts(g, id, node, a, e, probe);
    NodeIsComplete(a, e);
    FlagsMatchNode(a);
    AddKeepsSound(g, id, node, a, e, probe);
    SoundInv(g);
    SoundInv(AddSpec(g, id, node, a, e, probe).1);
    FoundAfterLink(g.aspace, AddSpec(g, id, node, a, e, probe).1.aspace, id, r, x, wanted);
  }

  lemma SoundInv(g: Guest)
    requires Sound(g)
    ensures Inv(g.aspace)
  {
  }

  lemma FoundAfterLink(s: Aspace, s': Aspace, id: nat, r: Region, x: nat, wanted: set<Flag>)
    requires Inv(s) && Inv(s') && id !in s.regs && s'.regs == s.regs[id := r] && (IO in wanted || MEMORY in wanted)
    ensures if Inside(r, x) && (IO in wanted <==> IO in r.flags) then
              FindRegion(s', x, wanted) == if wanted <= r.flags then Some(id) else None
            else FindRegion(s', x, wanted) == FindRegion(s, x, wanted)
  {
    hide FindRegion, Inv;
    FindRegionIsScan(s', x, wanted, id);
    var f, f' := FindRegion(s, x, wanted), FindRegion(s', x, wanted);
    RegionKind(s', id);
    if f'.Some? {
      FindRegionIsScan(s', x, wanted, f'.value);
      FindRegionIsScan(s, x, wanted, f'.value);
      RegionKind(s', f'.value);
      if f'.value != id && Inside(r, x) && (IO in wanted <==> IO in r.flags) {
        RegionsApart(s', id, f'.value, x);
      }
    }
    if f.Some? {
      FindRegionIsScan(s, x, wanted, f.value);
      FindRegionIsScan(s', x, wanted, f.value);
    }
  }

  /** A deleted region is found nowhere, and nothing else changes. */
  lemma DeletedIsGone(g: Guest, id: nat, delProbe: bool, x: nat, wanted: set<Flag>)
    requires Sound(g) && id in g.aspace.regs && Tiled(g.aspace.regs[id])
    requires !delProbe ==> id !in g.memProbe && id !in g.ioProbe
    requires IO in wanted || MEMORY in wanted
    ensures var s, s' := g.aspace, DelSpec(g, id, delProbe).aspace;
            && s'.regs == s.regs - {id}
            && FindRegion(s', x, wanted) == if FindRegion(s, x, wanted) == Some(id) then None else FindRegion(s, x, wanted)
  {
    hide Inv, Give, FindRegion, Erase, Tiled, ListOk, EmulatedOk;
    DelKeepsSound(g, id, delProbe);
    var s, s' := g.aspace, DelSpec(g, id, delProbe).aspace;
    var f, f' := FindRegion(s, x, wanted), FindRegion(s', x, wanted);
    if f'.Some? {
      FindRegionIsScan(s', x, wanted, f'.value);
      FindRegionIsScan(s, x, wanted, f'.value);
    }
    if f.Some? {
      FindRegionIsScan(s, x, wanted, f.value);
      FindRegionIsScan(s', x, wanted, f.value);
    }
  }

  // ----- what deleting returns -----

  predicate AllInBanks(banks: seq<Bank>, r: Region, i: nat)
    requires Tiled(r) && i <= |r.maps|
  {
    forall k :: i <= k < |r.maps| && r.maps[k].hostRam ==> Frees(banks, r.maps[k].hphys, SizeAt(r, k)).Some?
  }

  /** Where the mappings lie in banks, deleting a region that holds host RAM
      returns `VMM_OK`, also when the architecture had reported an error; without
      host RAM it returns what the architecture reported. */
  lemma {:induction false} DelReturns(banks: seq<Bank>, r: Region, i: nat, archRc: int)
    requires Tiled(r) && i <= |r.maps| && AllInBanks(banks, r, i)
    ensures GiveRc(banks, r, i, archRc) ==
              if exists k :: i <= k < |r.maps| && r.maps[k].hostRam then VMM_OK else archRc
    decreases |r.maps| - i
  {
    hide Tiled, SizeAt, FreeSpec, Frees, Alike, ClearAt;
    if i < |r.maps| {
      if r.maps[i].hostRam {
        var pa, sz := r.maps[i].hphys, SizeAt(r, i);
        var next := FreeSpec(banks, pa, sz).1;
        FreeInBank(banks, pa, sz);
        FreeIsClear(banks, pa, sz);
        ClearAlike(banks, Frees(banks, pa, sz));
        forall k | i + 1 <= k < |r.maps| && r.maps[k].hostRam ensures Frees(next, r.maps[k].hphys, SizeAt(r, k)).Some? {
          AlikeFrees(banks, next, r.maps[k].hphys, SizeAt(r, k));
        }
        DelReturns(next, r, i + 1, VMM_OK);
      } else {
        DelReturns(banks, r, i + 1, archRc);
      }
    }
  }

  lemma FreeInBank(banks: seq<Bank>, pa: nat, sz: nat)
    requires Frees(banks, pa, sz).Some?
    ensures FreeSpec(banks, pa, sz).0 == VMM_OK
  {
  }
}
