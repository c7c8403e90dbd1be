/** Host RAM behind guest regions: taking it mapping by mapping when a region is
    added, and giving it back on failure or deletion. */
module GuestRam {
  import opened Arith
  import opened Common
  import opened Frames
  import opened HostRam
  import opened HostRamRuns
  import opened GuestRegions

  // ----- marking and clearing runs of frames -----

  /** `cnt` frames of a bank from index `q` on. */
  datatype Grant = Grant(bank: nat, q: nat, cnt: nat)

  function MarkAt(banks: seq<Bank>, g: Grant): (r: seq<Bank>)
    ensures |r| == |banks|
  {
    if g.bank < |banks| then banks[g.bank := Mark(banks[g.bank], g.q, g.cnt)] else banks
  }

  function ClearAt(banks: seq<Bank>, g: Grant): (r: seq<Bank>)
    ensures |r| == |banks|
  {
    if g.bank < |banks| then banks[g.bank := Clear(banks[g.bank], g.q, g.cnt)] else banks
  }

  ghost predicate Grantable(banks: seq<Bank>, g: Grant) {
    g.bank < |banks| && Range(g.q, g.cnt) !! banks[g.bank].used
  }

  function MarkAll(banks: seq<Bank>, gs: seq<Grant>): (r: seq<Bank>)
    ensures |r| == |banks|
    decreases |gs|
  {
    if gs == [] then banks else MarkAll(MarkAt(banks, gs[0]), gs[1..])
  }

  function ClearAll(banks: seq<Bank>, gs: seq<Grant>): (r: seq<Bank>)
    ensures |r| == |banks|
    decreases |gs|
  {
    if gs == [] then banks else ClearAll(ClearAt(banks, gs[0]), gs[1..])
  }

  /** Each run was clear when it was marked. */
  ghost predicate Chain(banks: seq<Bank>, gs: seq<Grant>)
    decreases |gs|
  {
    gs == [] || (Grantable(banks, gs[0]) && Chain(MarkAt(banks, gs[0]), gs[1..]))
  }

  lemma ClearUndoesMark(banks: seq<Bank>, g: Grant)
    requires Grantable(banks, g)
    ensures ClearAt(MarkAt(banks, g), g) == banks
  {
    var b := banks[g.bank];
    assert b.used + Range(g.q, g.cnt) - Range(g.q, g.cnt) == b.used;
  }

  lemma MarksCommute(banks: seq<Bank>, g: Grant, h: Grant)
    requires g.bank < |banks|
    ensures MarkAt(MarkAt(banks, g), h) == MarkAt(MarkAt(banks, h), g)
  {
    hide Range;
    if g.bank == h.bank {
      var b := banks[g.bank];
      assert b.used + Range(g.q, g.cnt) + Range(h.q, h.cnt) == b.used + Range(h.q, h.cnt) + Range(g.q, g.cnt);
    }
  }

  /** A run marked first is still marked, and still apart, behind the others. */
  lemma {:induction false} MarkMovesBack(banks: seq<Bank>, g: Grant, gs: seq<Grant>)
    requires Grantable(banks, g) && Chain(MarkAt(banks, g), gs)
    ensures Chain(banks, gs) && Grantable(MarkAll(banks, gs), g)
    ensures MarkAll(MarkAt(banks, g), gs) == MarkAt(MarkAll(banks, gs), g)
    decreases |gs|
  {
    hide Range;
    if gs != [] {
      var h := gs[0];
      assert Grantable(MarkAt(banks, g), h);
      GrantableEarlier(banks, g, h);
      MarksCommute(banks, g, h);
      MarkMovesBack(MarkAt(banks, h), g, gs[1..]);
    }
  }

  lemma GrantableEarlier(banks: seq<Bank>, g: Grant, h: Grant)
    requires Grantable(banks, g) && Grantable(MarkAt(banks, g), h)
    ensures Grantable(banks, h) && Grantable(MarkAt(banks, h), g)
  {
    hide Range;
  }

  /** Giving back what was taken, in the same order, restores the banks. */
  lemma {:induction false} ClearAllUndoes(banks: seq<Bank>, gs: seq<Grant>)
    requires Chain(banks, gs)
    ensures ClearAll(MarkAll(banks, gs), gs) == banks
    decreases |gs|
  {
    hide MarkAt, ClearAt, Grantable;
    if gs != [] {
      MarkMovesBack(banks, gs[0], gs[1..]);
      ClearUndoesMark(MarkAll(banks, gs[1..]), gs[0]);
      ClearAllUndoes(banks, gs[1..]);
    }
  }

  lemma {:induction false} MarkAllAppend(banks: seq<Bank>, a: seq<Grant>, b: seq<Grant>)
    ensures MarkAll(banks, a + b) == MarkAll(MarkAll(banks, a), b)
    ensures Chain(banks, a + b) <==> Chain(banks, a) && Chain(MarkAll(banks, a), b)
    decreases |a|
  {
    hide MarkAt, Grantable;
    if a == [] {
      assert a + b == b;
    } else {
      assert (a + b)[0] == a[0] && (a + b)[1..] == a[1..] + b;
      MarkAllAppend(MarkAt(banks, a[0]), a[1..], b);
    }
  }

  /** Runs can be given back out of order: what was taken before and after them
      stays taken. */
  lemma {:induction false} ClearMiddle(banks: seq<Bank>, gs: seq<Grant>, b: seq<Grant>)
    requires Chain(banks, gs + b)
    ensures ClearAll(MarkAll(banks, gs + b), gs) == MarkAll(banks, b) && Chain(banks, b)
    decreases |gs|
  {
    hide MarkAt, ClearAt, Grantable;
    if gs == [] {
      assert gs + b == b;
    } else {
      var rest := gs[1..] + b;
      assert (gs + b)[0] == gs[0] && (gs + b)[1..] == rest;
      MarkMovesBack(banks, gs[0], rest);
      ClearUndoesMark(MarkAll(banks, rest), gs[0]);
      ClearMiddle(banks, gs[1..], b);
    }
  }

  // ----- taking and giving back the RAM of a region -----

  /** How a region gets its RAM. For colours: the order of a colour page, the
      addresses of each colour, the first colour and the number of colours. */
  datatype How = Reserve | Allocate | Colour(order: nat, match_: seq<set<nat>>, first: nat, num: nat)

  /** The colour of mapping `i`, a 32-bit sum. */
  function ColourAt(first: nat, i: nat, num: nat): nat
    requires num > 0
  {
    (first + i % num) % U32_RANGE
  }

  predicate HowOk(how: How) { how.Colour? ==> how.num > 0 }

  function SizeAt(r: Region, i: nat): nat
    requires Tiled(r) && i < |r.maps|
  {
    MapsTile(r, i);
    MapSize(r, i)
  }

  /** The attempt for mapping `i`: code, host address, banks. */
  function TakeOne(banks: seq<Bank>, r: Region, i: nat, how: How): (int, nat, seq<Bank>)
    requires Tiled(r) && i < |r.maps| && HowOk(how)
  {
    var pa := r.maps[i].hphys;
    match how
    case Reserve =>
      var t := ReserveSpec(banks, pa, SizeAt(r, i));
      (t.0, pa, t.1)
    case Allocate =>
      var t := AllocSpec(banks, SizeAt(r, i), r.alignOrder, None);
      if t.0.None? then (VMM_ENOMEM, pa, banks) else (VMM_OK, t.0.value.0, t.1)
    case Colour(order, match_, first, num) =>
      var c := ColourAt(first, i, num);
      if |match_| <= c then (VMM_ENOMEM, pa, banks)
      else
        var t := AllocSpec(banks, Pow2(order), order, Some(match_[c]));
        if t.0.None? then (VMM_ENOMEM, pa, banks) else (VMM_OK, t.0.value.0, t.1)
  }

  function SetMap(r: Region, i: nat, pa: nat): Region
    requires i < |r.maps|
  {
    r.(maps := r.maps[i := Mapping(pa, true)])
  }

  /** The loop over the mappings from `i` on, up to the first failure. */
  function Take(banks: seq<Bank>, r: Region, i: nat, how: How): (int, Region, seq<Bank>)
    requires Tiled(r) && i <= |r.maps| && HowOk(how)
    decreases |r.maps| - i
  {
    if i == |r.maps| then (VMM_OK, r, banks)
    else
      var t := TakeOne(banks, r, i, how);
      if t.0 != VMM_OK then (t.0, r, banks) else Take(t.2, SetMap(r, i, t.1), i + 1, how)
  }

  /** The loop that frees the host RAM of the mappings from `i` on. */
  function Give(banks: seq<Bank>, r: Region, i: nat): seq<Bank>
    requires Tiled(r) && i <= |r.maps|
    decreases |r.maps| - i
  {
    if i == |r.maps| then banks
    else if r.maps[i].hostRam then Give(FreeSpec(banks, r.maps[i].hphys, SizeAt(r, i)).1, r, i + 1)
    else Give(banks, r, i + 1)
  }

  /** The frames that freeing `[pa, pa + sz)` clears. */
  function Frees(banks: seq<Bank>, pa: nat, sz: nat): Option<Grant> {
    var n := BankOf(banks, pa, sz, 0);
    if n.None? then None else Some(Grant(n.value, (pa - banks[n.value].start) / PAGE, SizeToPage(sz)))
  }

  lemma FreeIsClear(banks: seq<Bank>, pa: nat, sz: nat)
    ensures FreeSpec(banks, pa, sz).1
         == if Frees(banks, pa, sz).None? then banks else ClearAt(banks, Frees(banks, pa, sz).value)
  {
  }

  // ----- the conditions under which giving back restores -----

  ghost predicate DisjointBanks(banks: seq<Bank>) {
    forall m, n :: 0 <= m < n < |banks| ==> End(banks[m]) <= banks[n].start || End(banks[n]) <= banks[m].start
  }

  /** The run granted for mapping `i` stays in its bank. */
  ghost predicate StaysInBank(banks: seq<Bank>, r: Region, i: nat, how: How)
    requires Tiled(r) && i < |r.maps| && HowOk(how)
  {
    match how
    case Reserve => true
    case Allocate => GrantInBank(banks, SizeAt(r, i), r.alignOrder, None)
    case Colour(order, match_, first, num) =>
      ColourAt(first, i, num) < |match_| ==>
        GrantInBank(banks, Pow2(order), order, Some(match_[ColourAt(first, i, num)]))
  }

  /** Every run granted on the way stays in its bank. */
  ghost predicate AllInBank(banks: seq<Bank>, r: Region, i: nat, how: How)
    requires Tiled(r) && i <= |r.maps| && HowOk(how)
    decreases |r.maps| - i
  {
    i == |r.maps| || (
      && StaysInBank(banks, r, i, how)
      && var t := TakeOne(banks, r, i, how);
         t.0 == VMM_OK ==> AllInBank(t.2, SetMap(r, i, t.1), i + 1, how)
    )
  }

  /** The size freed for mapping `i` is the size taken, in frames. */
  predicate EvenSize(r: Region, i: nat, how: How)
    requires Tiled(r) && i < |r.maps|
  {
    match how
    case Reserve => true
    case Allocate => SizeToPage(SizeAt(r, i)) == SizeToPage(RoundUp(SizeAt(r, i), r.alignOrder))
    case Colour(order, _, _, _) => SizeToPage(SizeAt(r, i)) == SizeToPage(RoundUp(Pow2(order), order))
  }

  /** A run found inside its bank is the run that freeing it clears. */
  lemma AllocFrees(banks: seq<Bank>, sz: nat, order: nat, colour: Option<set<nat>>, free: nat) returns (g: Grant)
    requires DisjointBanks(banks) && GrantInBank(banks, sz, order, colour) && free > 0
    requires AllocSpec(banks, sz, order, colour).0.Some? && SizeToPage(free) == SizeToPage(RoundUp(sz, order))
    ensures Grantable(banks, g) && AllocSpec(banks, sz, order, colour).1 == MarkAt(banks, g)
    ensures Frees(banks, AllocSpec(banks, sz, order, colour).0.value.0, free) == Some(g)
  {
    hide Aligned, RoundUp, FirstFit, Pow2;
    var rq := Request(order, RoundUp(sz, order), colour);
    var (n, q) := FirstBank(banks, rq, 0).value;
    g := Grant(n, q, FrameCount(rq));
    var b := banks[n];
    assert Candidate(b, rq, q) && InBank(b, rq, q);
    var pa := FrameAddr(b, q);
    assert b.start <= pa && pa + free <= End(b);
    var f := BankOf(banks, pa, free, 0);
    assert f.Some? && f.value <= n;
    assert (pa - b.start) / PAGE == q;
  }

  lemma ReserveFrees(banks: seq<Bank>, pa: nat, sz: nat) returns (g: Grant)
    requires ReserveSpec(banks, pa, sz).0 == VMM_OK
    ensures Grantable(banks, g) && ReserveSpec(banks, pa, sz).1 == MarkAt(banks, g) && Frees(banks, pa, sz) == Some(g)
  {
    g := Frees(banks, pa, sz).value;
  }

  lemma TakeOneGrants(banks: seq<Bank>, r: Region, i: nat, how: How) returns (g: Grant)
    requires Tiled(r) && i < |r.maps| && HowOk(how) && DisjointBanks(banks)
    requires StaysInBank(banks, r, i, how) && EvenSize(r, i, how) && TakeOne(banks, r, i, how).0 == VMM_OK
    ensures var t := TakeOne(banks, r, i, how);
            Grantable(banks, g) && t.2 == MarkAt(banks, g) && Frees(banks, t.1, SizeAt(r, i)) == Some(g)
  {
    hide AllocSpec, ReserveSpec, GrantInBank, Frees, Grantable, RoundUp, Pow2, MapSize;
    MapsTile(r, i);
    match how
    case Reserve => g := ReserveFrees(banks, r.maps[i].hphys, SizeAt(r, i));
    case Allocate => g := AllocFrees(banks, SizeAt(r, i), r.alignOrder, None, SizeAt(r, i));
    case Colour(order, match_, first, num) =>
      g := AllocFrees(banks, Pow2(order), order, Some(match_[ColourAt(first, i, num)]), SizeAt(r, i));
  }

  // ----- giving back undoes taking -----

  /** Banks that differ at most in their bits and counts. */
  ghost predicate Alike(a: seq<Bank>, b: seq<Bank>) {
    |a| == |b| && forall n :: 0 <= n < |a| ==> a[n].start == b[n].start && a[n].frames == b[n].frames
  }

  lemma {:induction false} AlikeBankOf(a: seq<Bank>, b: seq<Bank>, pa: nat, sz: nat, n: nat)
    requires Alike(a, b) && n <= |a|
    ensures BankOf(a, pa, sz, n) == BankOf(b, pa, sz, n)
    decreases |a| - n
  {
    if n < |a| { AlikeBankOf(a, b, pa, sz, n + 1); }
  }

  lemma AlikeFrees(a: seq<Bank>, b: seq<Bank>, pa: nat, sz: nat)
    requires Alike(a, b)
    ensures Frees(a, pa, sz) == Frees(b, pa, sz)
  {
    AlikeBankOf(a, b, pa, sz, 0);
  }

  lemma {:induction false} MarkAllAlike(banks: seq<Bank>, gs: seq<Grant>)
    ensures Alike(banks, MarkAll(banks, gs))
    decreases |gs|
  {
    if gs != [] { MarkAllAlike(MarkAt(banks, gs[0]), gs[1..]); }
  }

  /** The runs that `Give` clears, in order. */
  function Clears(banks: seq<Bank>, r: Region, i: nat): seq<Grant>
    requires Tiled(r) && i <= |r.maps|
    decreases |r.maps| - i
  {
    if i == |r.maps| then []
    else
      var rest := Clears(banks, r, i + 1);
      var g := if r.maps[i].hostRam then Frees(banks, r.maps[i].hphys, SizeAt(r, i)) else None;
      if g.None? then rest else [g.value] + rest
  }

  lemma {:induction false} AlikeClears(a: seq<Bank>, b: seq<Bank>, r: Region, i: nat)
    requires Alike(a, b) && Tiled(r) && i <= |r.maps|
    ensures Clears(a, r, i) == Clears(b, r, i)
    decreases |r.maps| - i
  {
    hide Frees, Alike;
    if i < |r.maps| {
      AlikeFrees(a, b, r.maps[i].hphys, SizeAt(r, i));
      AlikeClears(a, b, r, i + 1);
    }
  }

  lemma {:induction false} GiveIsClearAll(banks: seq<Bank>, r: Region, i: nat)
    requires Tiled(r) && i <= |r.maps|
    ensures Give(banks, r, i) == ClearAll(banks, Clears(banks, r, i))
    decreases |r.maps| - i
  {
    hide Frees, FreeSpec, ClearAt, SizeAt;
    if i < |r.maps| {
      if r.maps[i].hostRam {
        var pa, sz := r.maps[i].hphys, SizeAt(r, i);
        FreeIsClear(banks, pa, sz);
        var next := FreeSpec(banks, pa, sz).1;
        ClearAlike(banks, Frees(banks, pa, sz));
        AlikeClears(banks, next, r, i + 1);
        GiveIsClearAll(next, r, i + 1);
        if Frees(banks, pa, sz).Some? {
          var g, rest := Frees(banks, pa, sz).value, Clears(banks, r, i + 1);
          assert ([g] + rest)[0] == g && ([g] + rest)[1..] == rest;
        }
      } else {
        GiveIsClearAll(banks, r, i + 1);
      }
    }
  }

  lemma ClearAlike(banks: seq<Bank>, g: Option<Grant>)
    ensures g.Some? ==> Alike(banks, ClearAt(banks, g.value))
    ensures Alike(banks, banks)
  {
  }

  /** Regions that differ at most in the contents of their mappings. */
  ghost predicate SameButMaps(r: Region, r': Region) {
    r' == r.(maps := r'.maps) && |r'.maps| == |r.maps|
  }

  lemma ShapeFacts(r: Region, r': Region, i: nat, how: How)
    requires Tiled(r) && SameButMaps(r, r') && i < |r.maps|
    ensures Tiled(r') && SizeAt(r', i) == SizeAt(r, i) && EvenSize(r', i, how) == EvenSize(r, i, how)
  {
  }

  /** Taking RAM leaves the mappings before `i` alone. */
  lemma {:induction false} TakeKeepsShape(banks: seq<Bank>, r: Region, i: nat, how: How)
    requires Tiled(r) && i <= |r.maps| && HowOk(how)
    ensures var t := Take(banks, r, i, how);
            Tiled(t.1) && SameButMaps(r, t.1) && forall k :: 0 <= k < i ==> t.1.maps[k] == r.maps[k]
    decreases |r.maps| - i
  {
    hide TakeOne, MapsCount;
    if i < |r.maps| && TakeOne(banks, r, i, how).0 == VMM_OK {
      var one := TakeOne(banks, r, i, how);
      TakeKeepsShape(one.2, SetMap(r, i, one.1), i + 1, how);
    }
  }

  /** The runs taken: marked one after the other, and cleared by giving back. */
  lemma {:induction false} TakeGrants(banks: seq<Bank>, r: Region, i: nat, how: How) returns (gs: seq<Grant>)
    requires Tiled(r) && i <= |r.maps| && HowOk(how) && DisjointBanks(banks) && AllInBank(banks, r, i, how)
    requires forall k :: i <= k < |r.maps| ==> EvenSize(r, k, how) && !r.maps[k].hostRam
    ensures var t := Take(banks, r, i, how);
            && Tiled(t.1) && |t.1.maps| == |r.maps|
            && t.2 == MarkAll(banks, gs) && Chain(banks, gs) && Clears(banks, t.1, i) == gs
    decreases |r.maps| - i
  {
    hide TakeOne, Frees, StaysInBank, DisjointBanks, EvenSize, Tiled, SizeAt, Grantable, MarkAt;
    TakeKeepsShape(banks, r, i, how);
    gs := [];
    if i < |r.maps| {
      var one := TakeOne(banks, r, i, how);
      if one.0 != VMM_OK {
        NothingToClear(banks, r, i);
      } else {
        var g := TakeOneGrants(banks, r, i, how);
        var r' := SetMap(r, i, one.1);
        MarkDisjoint(banks, g);
        assert SameButMaps(r, r');
        ShapeFacts(r, r', i, how);
        forall k | i <= k < |r.maps| ensures Tiled(r') && EvenSize(r', k, how) { ShapeFacts(r, r', k, how); }
        var rest := TakeGrants(MarkAt(banks, g), r', i + 1, how);
        TakeKeepsShape(one.2, r', i + 1, how);
        gs := [g] + rest;
        ClearsStep(banks, r, Take(banks, r, i, how).1, i, how, g, rest);
      }
    }
  }

  lemma ClearsStep(banks: seq<Bank>, r: Region, r': Region, i: nat, how: How, g: Grant, rest: seq<Grant>)
    requires Tiled(r) && Tiled(r') && SameButMaps(r, r') && i < |r.maps| && r'.maps[i].hostRam
    requires Frees(banks, r'.maps[i].hphys, SizeAt(r, i)) == Some(g) && Clears(MarkAt(banks, g), r', i + 1) == rest
    ensures Clears(banks, r', i) == [g] + rest && ([g] + rest)[0] == g && ([g] + rest)[1..] == rest
  {
    hide Frees, EvenSize, Tiled, SizeAt, Grantable, MarkAt;
    ShapeFacts(r, r', i, how);
    MarkAlike(banks, g);
    AlikeClears(banks, MarkAt(banks, g), r', i + 1);
  }

  lemma MarkAlike(banks: seq<Bank>, g: Grant)
    ensures Alike(banks, MarkAt(banks, g))
  {
  }

  lemma {:induction false} NothingToClear(banks: seq<Bank>, r: Region, i: nat)
    requires Tiled(r) && i <= |r.maps| && forall k :: i <= k < |r.maps| ==> !r.maps[k].hostRam
    ensures Clears(banks, r, i) == []
    decreases |r.maps| - i
  {
    if i < |r.maps| { NothingToClear(banks, r, i + 1); }
  }

  lemma MarkDisjoint(banks: seq<Bank>, g: Grant)
    requires DisjointBanks(banks)
    ensures DisjointBanks(MarkAt(banks, g))
  {
  }

  /** Whatever the loop that takes RAM achieved, the loop that gives it back
      restores the banks. */
  lemma GiveUndoesTake(banks: seq<Bank>, r: Region, how: How)
    requires Tiled(r) && HowOk(how) && DisjointBanks(banks) && AllInBank(banks, r, 0, how)
    requires forall k :: 0 <= k < |r.maps| ==> EvenSize(r, k, how) && !r.maps[k].hostRam
    ensures var t := Take(banks, r, 0, how); Tiled(t.1) && Give(t.2, t.1, 0) == banks
  {
    hide Take, AllInBank, EvenSize, DisjointBanks;
    var gs := TakeGrants(banks, r, 0, how);
    var t := Take(banks, r, 0, how);
    MarkAllAlike(banks, gs);
    AlikeClears(banks, t.2, t.1, 0);
    GiveIsClearAll(t.2, t.1, 0);
    ClearAllUndoes(banks, gs);
  }

  // ----- when the sizes taken and given back agree -----

  lemma SizeAligned(r: Region, i: nat, order: nat)
    requires Tiled(r) && i < |r.maps| && order <= r.mapOrder && Aligned(r.size, order)
    ensures Aligned(SizeAt(r, i), order)
  {
    hide Aligned, Pow2, MapsCount;
    AlignedPow2(order, r.mapOrder);
    AlignedProduct(i, r.mapOrder);
    AlignedToSmaller(i * Pow2(r.mapOrder), order, r.mapOrder);
    MapsTile(r, i);
    OffsetBelow(r, i);
    AlignedSub(r.size, i * Pow2(r.mapOrder), order);
  }

  /** Mappings no smaller than the alignment are allocated at their own size. */
  lemma AllocateIsEven(r: Region, i: nat)
    requires Tiled(r) && i < |r.maps| && r.alignOrder <= r.mapOrder && Aligned(r.size, r.alignOrder)
    ensures EvenSize(r, i, Allocate)
  {
    SizeAligned(r, i, r.alignOrder);
  }

  /** The mappings of a colour region are all one colour page. */
  lemma ColourIsEven(r: Region, i: nat, how: How)
    requires Tiled(r) && i < |r.maps| && how.Colour? && r.mapOrder == how.order && Aligned(r.size, how.order)
    ensures EvenSize(r, i, how)
  {
    hide Aligned, Pow2, MapsCount, LowBits;
    var p := Pow2(how.order);
    SizeAligned(r, i, how.order);
    MapsTile(r, i);
    AlignedZero(how.order);
    AlignedApart(0, SizeAt(r, i), how.order);
    assert SizeAt(r, i) == p;
    AlignedPow2(how.order, how.order);
  }

  // ----- what uneven sizes lose -----

  /** The sum of the free counts. */
  function TotalFree(banks: seq<Bank>): int {
    if banks == [] then 0 else banks[0].free + TotalFree(banks[1..])
  }

  lemma {:induction false} TotalUpdate(banks: seq<Bank>, n: nat, b: Bank)
    requires n < |banks|
    ensures TotalFree(banks[n := b]) == TotalFree(banks) - banks[n].free + b.free
    decreases n
  {
    if n > 0 {
      TotalUpdate(banks[1..], n - 1, b);
      assert banks[n := b][1..] == banks[1..][n - 1 := b];
    } else {
      assert banks[n := b][1..] == banks[1..];
    }
  }

  lemma AllocTotal(banks: seq<Bank>, sz: nat, order: nat)
    requires AllocSpec(banks, sz, order, None).0.Some?
    ensures TotalFree(AllocSpec(banks, sz, order, None).1) == TotalFree(banks) - SizeToPage(RoundUp(sz, order))
  {
    hide FirstFit, RoundUp, Aligned, TotalFree;
    var rq := Request(order, RoundUp(sz, order), None);
    var (n, q) := FirstBank(banks, rq, 0).value;
    TotalUpdate(banks, n, Mark(banks[n], q, FrameCount(rq)));
  }

  lemma FreeTotal(banks: seq<Bank>, pa: nat, sz: nat)
    ensures TotalFree(FreeSpec(banks, pa, sz).1) <= TotalFree(banks) + SizeToPage(sz)
  {
    hide TotalFree, Range;
    var n := BankOf(banks, pa, sz, 0);
    if n.Some? {
      TotalUpdate(banks, n.value, Clear(banks[n.value], (pa - banks[n.value].start) / PAGE, SizeToPage(sz)));
    }
  }

  /** Frames taken for the mappings from `i` on that hold host RAM, and frames
      freed for them. */
  function FramesTaken(r: Region, i: nat): nat
    requires Tiled(r) && i <= |r.maps|
    decreases |r.maps| - i
  {
    if i == |r.maps| then 0
    else
      (if r.maps[i].hostRam then SizeToPage(RoundUp(SizeAt(r, i), r.alignOrder)) else 0) + FramesTaken(r, i + 1)
  }

  function FramesFreed(r: Region, i: nat): (n: nat)
    requires Tiled(r) && i <= |r.maps|
    ensures n <= FramesTaken(r, i)
    decreases |r.maps| - i
  {
    if i == |r.maps| then 0
    else (if r.maps[i].hostRam then SizeToPage(SizeAt(r, i)) else 0) + FramesFreed(r, i + 1)
  }

  lemma {:induction false} NothingTaken(r: Region, i: nat)
    requires Tiled(r) && i <= |r.maps| && forall k :: i <= k < |r.maps| ==> !r.maps[k].hostRam
    ensures FramesTaken(r, i) == 0
    decreases |r.maps| - i
  {
    hide Tiled, RoundUp, SizeAt;
    if i < |r.maps| { NothingTaken(r, i + 1); }
  }

  /** The loop takes the frames of the mappings it leaves with host RAM, however
      far it gets. */
  lemma {:induction false} TakeTotal(banks: seq<Bank>, r: Region, i: nat)
    requires Tiled(r) && i <= |r.maps| && forall k :: i <= k < |r.maps| ==> !r.maps[k].hostRam
    ensures var t := Take(banks, r, i, Allocate);
            Tiled(t.1) && |t.1.maps| == |r.maps| && TotalFree(t.2) == TotalFree(banks) - FramesTaken(t.1, i)
    decreases |r.maps| - i
  {
    hide SizeToPage, RoundUp, SizeAt, AllocSpec, TotalFree, MapsCount;
    TakeKeepsShape(banks, r, i, Allocate);
    if i < |r.maps| {
      var one := TakeOne(banks, r, i, Allocate);
      if one.0 != VMM_OK {
        NothingTaken(r, i);
      } else {
        var r' := SetMap(r, i, one.1);
        AllocTotal(banks, SizeAt(r, i), r.alignOrder);
        TakeTotal(one.2, r', i + 1);
        TakeKeepsShape(one.2, r', i + 1, Allocate);
        var t := Take(banks, r, i, Allocate);
        ShapeFacts(r, t.1, i, Allocate);
        assert t.1.maps[i].hostRam && t.1.alignOrder == r.alignOrder;
      }
    }
  }

  lemma {:induction false} GiveTotal(banks: seq<Bank>, r: Region, i: nat)
    requires Tiled(r) && i <= |r.maps|
    ensures TotalFree(Give(banks, r, i)) <= TotalFree(banks) + FramesFreed(r, i)
    decreases |r.maps| - i
  {
    hide SizeToPage, RoundUp, SizeAt, FreeSpec, TotalFree, MapsCount;
    if i < |r.maps| {
      if r.maps[i].hostRam {
        FreeTotal(banks, r.maps[i].hphys, SizeAt(r, i));
        GiveTotal(FreeSpec(banks, r.maps[i].hphys, SizeAt(r, i)).1, r, i + 1);
      } else {
        GiveTotal(banks, r, i + 1);
      }
    }
  }

  /** A first mapping smaller than the alignment is freed short of what it took. */
  lemma SmallMappingLoses(r: Region)
    requires Tiled(r) && r.size > 0 && PAGE_SHIFT <= r.mapOrder < r.alignOrder && Aligned(r.size, r.alignOrder)
    requires |r.maps| > 0 && r.maps[0].hostRam
    ensures FramesFreed(r, 0) < FramesTaken(r, 0)
  {
    hide Aligned, Pow2, MapsCount, RoundUp, LowBits;
    AlignedZero(r.alignOrder);
    AlignedApart(0, r.size, r.alignOrder);
    Pow2Monotone(r.mapOrder + 1, r.alignOrder);
    Pow2Monotone(PAGE_SHIFT, r.mapOrder);
    Pow2Double(r.mapOrder);
    PageSize();
    MapsTile(r, 0);
    assert SizeAt(r, 0) == Pow2(r.mapOrder);
    var up := RoundUp(SizeAt(r, 0), r.alignOrder);
    AlignedApart(0, up, r.alignOrder);
    assert SizeToPage(SizeAt(r, 0)) < SizeToPage(up);
    assert FramesFreed(r, 1) <= FramesTaken(r, 1);
  }

  lemma Pow2Double(k: nat)
    ensures Pow2(k + 1) == 2 * Pow2(k)
  {
  }

  /** Mappings smaller than the alignment lose frames as soon as the first one
      is granted, whether the others are or not. */
  lemma SmallMappingsAreLost(banks: seq<Bank>, r: Region)
    requires Tiled(r) && |r.maps| > 0 && r.size > 0 && PAGE_SHIFT <= r.mapOrder < r.alignOrder
    requires Aligned(r.size, r.alignOrder) && forall k :: 0 <= k < |r.maps| ==> !r.maps[k].hostRam
    requires TakeOne(banks, r, 0, Allocate).0 == VMM_OK
    ensures var t := Take(banks, r, 0, Allocate); Tiled(t.1) && Give(t.2, t.1, 0) != banks
  {
    hide TakeOne, Give, Aligned, TotalFree, FramesTaken, FramesFreed, MapsCount;
    var one, t := TakeOne(banks, r, 0, Allocate), Take(banks, r, 0, Allocate);
    TakeKeepsShape(banks, r, 0, Allocate);
    TakeKeepsShape(one.2, SetMap(r, 0, one.1), 1, Allocate);
    TakeTotal(banks, r, 0);
    GiveTotal(t.2, t.1, 0);
    SmallMappingLoses(t.1);
  }

  /** Giving back the RAM of an allocated region, after success or after any
      failure, restores the banks if and only if its mappings are no smaller
      than its alignment or not even the first of them was granted. */
  lemma AllocatedIsRestoredIff(banks: seq<Bank>, r: Region)
    requires Tiled(r) && |r.maps| > 0 && r.size > 0 && PAGE_SHIFT <= r.mapOrder && Aligned(r.size, r.alignOrder)
    requires DisjointBanks(banks) && AllInBank(banks, r, 0, Allocate)
    requires forall k :: 0 <= k < |r.maps| ==> !r.maps[k].hostRam
    ensures var t := Take(banks, r, 0, Allocate);
            && Tiled(t.1)
            && (Give(t.2, t.1, 0) == banks <==>
                  r.alignOrder <= r.mapOrder || TakeOne(banks, r, 0, Allocate).0 != VMM_OK)
  {
    hide AllInBank, DisjointBanks, Give, Aligned, TakeOne, EvenSize, MapsCount;
    TakeKeepsShape(banks, r, 0, Allocate);
    if r.alignOrder <= r.mapOrder {
      forall k | 0 <= k < |r.maps| ensures EvenSize(r, k, Allocate) && !r.maps[k].hostRam { AllocateIsEven(r, k); }
      GiveUndoesTake(banks, r, Allocate);
    } else if TakeOne(banks, r, 0, Allocate).0 == VMM_OK {
      SmallMappingsAreLost(banks, r);
    } else {
      NothingToClear(banks, r, 0);
      GiveIsClearAll(banks, r, 0);
    }
  }

  // ----- an allocated region that leaks -----

  /** Two pages in page-sized mappings, aligned to two pages. */
  const LEAKY: Region := Region({REAL, MEMORY, ISRAM, ISALLOCED, CACHEABLE, BUFFERABLE}, 0, 2 * PAGE, 13, PAGE_SHIFT,
                                [Mapping(0, false), Mapping(PAGE, false)], 0, None)

  lemma TwoPages()
    ensures Pow2(13) == 2 * PAGE && RoundUp(PAGE, 13) == 2 * PAGE && Aligned(2 * PAGE, 13) && Aligned(0, 13)
  {
    hide Aligned, RoundUp, LowBits;
    PageSize();
    Pow2Double(PAGE_SHIFT);
    AlignedZero(13);
    AlignedPow2(13, 13);
    var r := RoundUp(PAGE, 13);
    AlignedApart(0, r, 13);
    if r > 2 * PAGE { AlignedApart(2 * PAGE, r, 13); }
  }

  lemma LeakyIsTiled()
    ensures Tiled(LEAKY) && SizeAt(LEAKY, 0) == PAGE && SizeAt(LEAKY, 1) == PAGE
  {
    hide Pow2, Shr, LowBits;
    PageSize();
    ShrSplit(2 * PAGE, PAGE_SHIFT);
    UniqueSplit(Shr(2 * PAGE, PAGE_SHIFT), LowBits(2 * PAGE, PAGE_SHIFT), 2, 0, PAGE);
  }

  /** A page aligned to two pages takes two frames of a lone bank. */
  lemma TakesTwo(used: set<nat>, free: nat, q: nat)
    requires q + 2 <= 4 && 2 <= free && Range(q, 2) !! used && Aligned(q * PAGE, 13)
    requires forall k: nat :: k < q ==> k in used
    ensures AllocSpec([Bank(0, 4, used, free)], PAGE, 13, None)
         == (Some((q * PAGE, 2 * PAGE)), [Bank(0, 4, used + Range(q, 2), free - 2)])
  {
    hide Aligned, RoundUp, Pow2, FirstFit, FirstBank, Range;
    TwoPages();
    var b := Bank(0, 4, used, free);
    var rq := Request(13, 2 * PAGE, None);
    assert [b][0] == b && FrameCount(rq) == 2;
    assert Candidate(b, rq, q);
    var f := FirstFit(b, rq, 0);
    assert f.Some? && f.value <= q && f.value in Range(f.value, 2);
    assert f.value == q;
    assert FirstBank([b], rq, 0) == Some((0, q));
    assert [b][0 := Mark(b, q, 2)] == [Bank(0, 4, used + Range(q, 2), free - 2)];
  }

  /** Added and deleted again, the region keeps two of the four frames. */
  lemma SmallMappingsLeak()
    ensures Tiled(LEAKY)
    ensures var banks := [Bank(0, 4, {}, 4)];
            var t := Take(banks, LEAKY, 0, Allocate);
            t.0 == VMM_OK && Tiled(t.1) && Give(t.2, t.1, 0) != banks
  {
    hide AllocSpec, Aligned, Pow2, RoundUp, MapsCount, Give, Range;
    LeakyIsTiled();
    TwoPages();
    var banks := [Bank(0, 4, {}, 4)];
    TakesTwo({}, 4, 0);
    TakesTwo({} + Range(0, 2), 2, 2);
    var r1 := SetMap(LEAKY, 0, 0);
    assert SameButMaps(LEAKY, r1);
    ShapeFacts(LEAKY, r1, 1, Allocate);
    var t := Take(banks, LEAKY, 0, Allocate);
    var one := TakeOne(banks, LEAKY, 0, Allocate);
    assert one == (VMM_OK, 0, [Bank(0, 4, {} + Range(0, 2), 2)]);
    assert t == Take(one.2, r1, 1, Allocate);
    var two := TakeOne(one.2, r1, 1, Allocate);
    assert SizeAt(r1, 1) == PAGE && r1.alignOrder == 13;
    assert two.0 == VMM_OK;
    var r2 := SetMap(r1, 1, two.1);
    assert |r2.maps| == 2 && t == Take(two.2, r2, 2, Allocate);
    SmallMappingsAreLost(banks, LEAKY);
  }
}
