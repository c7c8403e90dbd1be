/** Guest memory access: reads and writes cut into chunks by region, mapping and
    host page, against the byte-by-byte translation. */
module GuestMemory {
  import opened Arith
  import opened Common
  import opened GuestRegions

  // ----- loads and stores at a list of addresses -----

  predicate AllBelow(at: seq<nat>, n: nat) { forall i :: 0 <= i < |at| ==> at[i] < n }

  /** The bytes at the addresses `at`. */
  function Load(mem: seq<Byte>, at: seq<nat>): (r: seq<Byte>)
    requires AllBelow(at, |mem|)
    ensures |r| == |at| && forall i :: 0 <= i < |at| ==> r[i] == mem[at[i]]
  {
    seq(|at|, i requires 0 <= i < |at| => mem[at[i]])
  }

  /** The bytes written one after the other. */
  function Store(mem: seq<Byte>, at: seq<nat>, data: seq<Byte>): (r: seq<Byte>)
    requires AllBelow(at, |mem|) && |at| == |data|
    ensures |r| == |mem|
    decreases |at|
  {
    if at == [] then mem else Store(mem[at[0] := data[0]], at[1..], data[1..])
  }

  lemma {:induction false} StoreAppend(mem: seq<Byte>, a: seq<nat>, x: seq<Byte>, b: seq<nat>, y: seq<Byte>)
    requires AllBelow(a, |mem|) && AllBelow(b, |mem|) && |a| == |x| && |b| == |y|
    ensures AllBelow(a + b, |mem|) && Store(mem, a + b, x + y) == Store(Store(mem, a, x), b, y)
    decreases |a|
  {
    if a == [] {
      assert a + b == b && x + y == y;
    } else {
      StoreAppend(mem[a[0] := x[0]], a[1..], x[1..], b, y);
      assert (a + b)[1..] == a[1..] + b && (x + y)[1..] == x[1..] + y;
      assert (a + b)[0] == a[0] && (x + y)[0] == x[0];
    }
  }

  /** Consecutive addresses. */
  function Run(h: nat, n: nat): (r: seq<nat>)
    ensures |r| == n && forall i :: 0 <= i < n ==> r[i] == h + i
  {
    seq(n, i requires 0 <= i < n => h + i)
  }

  lemma Splice(mem: seq<Byte>, one: seq<Byte>, two: seq<Byte>, h: nat, src: seq<Byte>, done: nat, n: nat)
    requires done + n <= |src| && h + done + n <= |mem| == |one|
    requires one == if done == 0 then mem else Spliced(mem, h, src[..done])
    requires two == Spliced(one, h + done, src[done..done + n])
    ensures two == Spliced(mem, h, src[..done + n])
  {
    assert src[..done + n] == src[..done] + src[done..done + n];
  }

  lemma {:induction false} StoreRun(mem: seq<Byte>, h: nat, data: seq<Byte>)
    requires h + |data| <= |mem|
    ensures Store(mem, Run(h, |data|), data) == Spliced(mem, h, data)
    decreases |data|
  {
    if data != [] {
      var mem' := mem[h := data[0]];
      StoreRun(mem', h + 1, data[1..]);
      assert Run(h, |data|)[1..] == Run(h + 1, |data| - 1);
      assert mem'[..h + 1] == mem[..h] + [data[0]];
      assert mem'[h + 1 + (|data| - 1)..] == mem[h + |data|..];
    }
  }

  /** The last byte stored at an address is what it holds. */
  lemma {:induction false} StoreHolds(mem: seq<Byte>, at: seq<nat>, data: seq<Byte>, i: nat)
    requires AllBelow(at, |mem|) && |at| == |data| && i < |at|
    requires forall j :: i < j < |at| && at[j] == at[i] ==> data[j] == data[i]
    ensures Store(mem, at, data)[at[i]] == data[i]
    decreases |at|
  {
    var mem' := mem[at[0] := data[0]];
    if i > 0 {
      StoreHolds(mem', at[1..], data[1..], i - 1);
    } else if exists j :: 0 < j < |at| && at[j] == at[0] {
      var j :| 0 < j < |at| && at[j] == at[0];
      assert at[1..][j - 1] == at[0] && data[1..][j - 1] == data[j];
      forall k | j - 1 < k < |at| - 1 && at[1..][k] == at[1..][j - 1] ensures data[1..][k] == data[1..][j - 1] {
        assert at[k + 1] == at[0] && data[k + 1] == data[1..][k];
      }
      StoreHolds(mem', at[1..], data[1..], j - 1);
    } else {
      StoreKeeps(mem', at[1..], data[1..], at[0]);
    }
  }

  lemma {:induction false} StoreKeeps(mem: seq<Byte>, at: seq<nat>, data: seq<Byte>, a: nat)
    requires AllBelow(at, |mem|) && |at| == |data| && a < |mem| && a !in at
    ensures Store(mem, at, data)[a] == mem[a]
    decreases |at|
  {
    if at != [] { StoreKeeps(mem[at[0] := data[0]], at[1..], data[1..], a); }
  }

  /** Bytes that share an address agree. */
  predicate Agree(at: seq<nat>, data: seq<Byte>)
    requires |at| == |data|
  {
    forall i, j :: 0 <= i < j < |at| && at[i] == at[j] ==> data[i] == data[j]
  }

  /** Reading back what was written gives the same bytes if and only if the
      bytes written to one host byte are equal; in particular when distinct
      guest bytes have distinct host bytes. */
  lemma ReadBackIff(mem: seq<Byte>, at: seq<nat>, data: seq<Byte>)
    requires AllBelow(at, |mem|) && |at| == |data|
    ensures Load(Store(mem, at, data), at) == data <==> Agree(at, data)
  {
    var mem' := Store(mem, at, data);
    if Agree(at, data) {
      forall i | 0 <= i < |at| ensures Load(mem', at)[i] == data[i] {
        StoreHolds(mem, at, data, i);
      }
    } else {
      var i, j :| 0 <= i < j < |at| && at[i] == at[j] && data[i] != data[j];
      assert Load(mem', at)[i] == Load(mem', at)[j];
    }
  }

  // ----- host memory, a page at a time -----

  /** How many of the bytes from `hpa` on lie in pages that can be mapped. */
  function Extent(ok: set<nat>, hpa: nat, len: nat): (n: nat)
    ensures n <= len && forall a :: hpa <= a < hpa + n ==> a / PAGE in ok
    ensures n < len ==> (hpa + n) / PAGE !in ok
    decreases len
  {
    if len == 0 || hpa / PAGE !in ok then 0 else 1 + Extent(ok, hpa + 1, len - 1)
  }

  lemma ExtentIs(ok: set<nat>, hpa: nat, len: nat, n: nat)
    requires n <= len && forall a :: hpa <= a < hpa + n ==> a / PAGE in ok
    requires n < len ==> (hpa + n) / PAGE !in ok
    ensures Extent(ok, hpa, len) == n
  {
    var page := (hpa + Extent(ok, hpa, len)) / PAGE;
  }

  /** The pages that can be mapped are there. */
  predicate PagesThere(ok: set<nat>, n: nat) { forall p :: p in ok ==> (p + 1) * PAGE <= n }

  class HostMem {
    const cells: array<Byte>
    const ok: set<nat>

    constructor (cells: array<Byte>, ok: set<nat>)
      ensures this.cells == cells && this.ok == ok
    {
      this.cells, this.ok := cells, ok;
    }

    ghost predicate Valid() { PagesThere(ok, cells.Length) }

    /** `vmm_host_memory_read`. */
    method Read(hpa: nat, len: nat) returns (dst: seq<Byte>)
      requires Valid()
      ensures var n := Extent(ok, hpa, len);
              n > 0 ==> hpa + n <= cells.Length && dst == cells[hpa..hpa + n]
      ensures |dst| == Extent(ok, hpa, len)
    {
      hide Extent;
      var p := hpa;
      dst := [];
      while |dst| < len
        invariant |dst| <= len && p == hpa + |dst|
        invariant |dst| > 0 ==> p <= cells.Length && dst == cells[hpa..p]
        invariant forall a :: hpa <= a < p ==> a / PAGE in ok
      {
        var n := PAGE - p % PAGE;
        n := if n < len - |dst| then n else len - |dst|;
        if p / PAGE !in ok {
          break;
        }
        assert forall a :: p <= a < p + n ==> a / PAGE == p / PAGE;
        assert (p / PAGE + 1) * PAGE <= cells.Length;
        dst := dst + cells[p..p + n];
        p := p + n;
      }
      ExtentIs(ok, hpa, len, |dst|);
    }

    /** `vmm_host_memory_write`. */
    method Write(hpa: nat, src: seq<Byte>) returns (done: nat)
      requires Valid()
      modifies cells
      ensures done == Extent(ok, hpa, |src|)
      ensures if done == 0 then cells[..] == old(cells[..])
              else
                && hpa + done <= cells.Length
                && cells[..] == Spliced(old(cells[..]), hpa, src[..done])
    {
      hide Extent, Spliced;
      var p := hpa;
      done := 0;
      while done < |src|
        invariant done <= |src| && p == hpa + done
        invariant done == 0 ==> cells[..] == old(cells[..])
        invariant done > 0 ==> p <= cells.Length && cells[..] == Spliced(old(cells[..]), hpa, src[..done])
        invariant forall a :: hpa <= a < p ==> a / PAGE in ok
      {
        var n := PAGE - p % PAGE;
        n := if n < |src| - done then n else |src| - done;
        if p / PAGE !in ok {
          break;
        }
        assert forall a :: p <= a < p + n ==> a / PAGE == p / PAGE;
        assert (p / PAGE + 1) * PAGE <= cells.Length;
        ghost var before := cells[..];
        CopyBytes(cells, p, src[done..done + n]);
        Splice(old(cells[..]), before, cells[..], hpa, src, done, n);
        p, done := p + n, done + n;
      }
      ExtentIs(ok, hpa, |src|, done);
    }
  }

  // ----- guest memory, a mapping at a time -----

  const REAL_MEMORY: set<Flag> := {REAL, MEMORY}

  /** The host byte of a guest byte that lies directly in a real memory region
      and whose host page can be mapped. */
  ghost function Translate(s: Aspace, ok: set<nat>, a: nat): Option<nat>
    requires Inv(s)
  {
    var found := FindRegion(s, a, REAL_MEMORY);
    if found.None? then None
    else
      FindRegionIsScan(s, a, REAL_MEMORY, found.value);
      var h := HostOf(s.regs[found.value], a);
      if h / PAGE in ok then Some(h) else None
  }

  /** The host bytes of the longest run of guest bytes from `a` on that
      translate, at most `len`. */
  ghost function Trans(s: Aspace, ok: set<nat>, a: nat, len: nat): (r: seq<nat>)
    requires Inv(s)
    ensures |r| <= len
    decreases len
  {
    if len == 0 || Translate(s, ok, a).None? then []
    else [Translate(s, ok, a).value] + Trans(s, ok, a + 1, len - 1)
  }

  /** `Trans` is that run: each of its bytes translates, and the next does not. */
  lemma {:induction false} TransIsLongest(s: Aspace, ok: set<nat>, a: nat, len: nat, k: nat)
    requires Inv(s)
    ensures k < |Trans(s, ok, a, len)| ==> Translate(s, ok, a + k) == Some(Trans(s, ok, a, len)[k])
    ensures k == |Trans(s, ok, a, len)| < len ==> Translate(s, ok, a + k).None?
    decreases len
  {
    hide Translate;
    if len > 0 && k > 0 && Translate(s, ok, a).Some? {
      TransIsLongest(s, ok, a + 1, len - 1, k - 1);
    }
  }

  ghost predicate GoesTo(s: Aspace, ok: set<nat>, a: nat, h: nat, k: nat)
    requires Inv(s)
  {
    Translate(s, ok, a + k) == Some(h + k)
  }

  lemma {:induction false} TransRun(s: Aspace, ok: set<nat>, a: nat, len: nat, h: nat, n: nat)
    requires Inv(s) && n <= len && forall k: nat :: k < n ==> GoesTo(s, ok, a, h, k)
    ensures Trans(s, ok, a, len) == Run(h, n) + Trans(s, ok, a + n, len - n)
    decreases n
  {
    hide Translate, Inv;
    if n == 0 {
      assert Run(h, 0) + Trans(s, ok, a, len) == Trans(s, ok, a, len);
    } else {
      assert GoesTo(s, ok, a, h, 0);
      var a', h' := a + 1, h + 1;
      forall k: nat | k < n - 1 ensures GoesTo(s, ok, a', h', k) {
        assert GoesTo(s, ok, a, h, k + 1);
      }
      TransRun(s, ok, a', len - 1, h', n - 1);
      assert Run(h, n) == [h] + Run(h + 1, n - 1);
    }
  }

  lemma ByteTranslates(s: Aspace, ok: set<nat>, a: nat, id: nat, k: nat)
    requires Inv(s) && FindRegion(s, a, REAL_MEMORY) == Some(id) && id in s.regs && RegionOk(s.regs[id])
    requires k < FindMapping(s.regs[id], a).1
    ensures var h := FindMapping(s.regs[id], a).0 + k;
            Translate(s, ok, a + k) == if h / PAGE in ok then Some(h) else None
  {
    hide Inv, FindRegion, FindMapping, HostOf, Tiled;
    FindRegionIsScan(s, a, REAL_MEMORY, id);
    FindMappingTranslates(s.regs[id], a, k);
    FindRegionIsScan(s, a + k, REAL_MEMORY, id);
  }

  /** One chunk of the loops: the host bytes reached at the mapping found are
      the next bytes of the translation. */
  lemma ChunkTranslates(s: Aspace, ok: set<nat>, a: nat, len: nat, id: nat, m: nat)
    requires Inv(s) && FindRegion(s, a, REAL_MEMORY) == Some(id) && id in s.regs && RegionOk(s.regs[id])
    requires m <= len && m <= FindMapping(s.regs[id], a).1
    ensures var h := FindMapping(s.regs[id], a).0;
            var n := Extent(ok, h, m);
            && Trans(s, ok, a, len) == Run(h, n) + Trans(s, ok, a + n, len - n)
            && (n == 0 && m > 0 ==> Trans(s, ok, a, len) == [])
  {
    hide Inv, FindRegion, FindMapping, Translate, Extent, Tiled;
    var h := FindMapping(s.regs[id], a).0;
    var n := Extent(ok, h, m);
    forall k: nat | k < n ensures GoesTo(s, ok, a, h, k) {
      ByteTranslates(s, ok, a, id, k);
      assert h + k < h + n;
    }
    TransRun(s, ok, a, len, h, n);
    if n == 0 && m > 0 {
      ByteTranslates(s, ok, a, id, 0);
    }
  }

  lemma {:induction false} TransBelow(s: Aspace, ok: set<nat>, a: nat, len: nat, n: nat)
    requires Inv(s) && PagesThere(ok, n)
    ensures AllBelow(Trans(s, ok, a, len), n)
    decreases len
  {
    hide Inv, FindRegion, HostOf;
    if len > 0 && Translate(s, ok, a).Some? {
      TransBelow(s, ok, a + 1, len - 1, n);
    }
  }

  // ----- the accesses -----

  /** What alias resolution ends at: a memory region that is no alias. */
  ghost predicate TargetsOk(s: Aspace, target: map<nat, nat>) {
    forall id :: id in target ==>
      target[id] in s.regs && ALIAS !in s.regs[target[id]].flags && MEMORY in s.regs[target[id]].flags
  }

  /** `vmm_guest_find_region` with alias resolution, for a real memory region.
      Where the address lies in an alias, the region returned does not hold it. */
  method FindForAccess(s: Aspace, target: map<nat, nat>, a: nat) returns (r: Option<nat>)
    requires Inv(s) && TargetsOk(s, target)
    ensures r.Some? ==> r.value in s.regs && RegionOk(s.regs[r.value])
    ensures r.Some? && Inside(s.regs[r.value], a) ==> FindRegion(s, a, REAL_MEMORY) == r
    ensures r.Some? && !Inside(s.regs[r.value], a) ==> FindRegion(s, a, REAL_MEMORY) == None
    ensures r.None? ==> FindRegion(s, a, REAL_MEMORY) == None
  {
    hide FindRegion, TreeOk;
    var found := FindRegion(s, a, {MEMORY});
    NoRegion(s, a);
    if found.None? {
      return None;
    }
    FindRegionIsScan(s, a, {MEMORY}, found.value);
    var reg := s.regs[found.value];
    if ALIAS in reg.flags {
      NotReal(s, a, found.value);
      if found.value !in target || REAL !in s.regs[target[found.value]].flags {
        return None;
      }
      RegionsApart(s, found.value, target[found.value], a);
      return Some(target[found.value]);
    }
    if REAL !in reg.flags {
      NotReal(s, a, found.value);
      return None;
    }
    FindRegionIsScan(s, a, REAL_MEMORY, found.value);
    r := found;
  }

  lemma NoRegion(s: Aspace, a: nat)
    requires Inv(s)
    ensures FindRegion(s, a, {MEMORY}).None? ==> FindRegion(s, a, REAL_MEMORY).None?
  {
    hide Inv, FindRegion;
    if FindRegion(s, a, REAL_MEMORY).Some? {
      var id := FindRegion(s, a, REAL_MEMORY).value;
      FindRegionIsScan(s, a, REAL_MEMORY, id);
      FindRegionIsScan(s, a, {MEMORY}, id);
    }
  }

  lemma NotReal(s: Aspace, a: nat, id: nat)
    requires Inv(s) && FindRegion(s, a, {MEMORY}) == Some(id) && id in s.regs && REAL !in s.regs[id].flags
    ensures FindRegion(s, a, REAL_MEMORY) == None
  {
    hide Inv, FindRegion;
    if FindRegion(s, a, REAL_MEMORY).Some? {
      var other := FindRegion(s, a, REAL_MEMORY).value;
      FindRegionIsScan(s, a, REAL_MEMORY, other);
      FindRegionIsScan(s, a, {MEMORY}, other);
    }
  }

  lemma NothingTranslates(s: Aspace, ok: set<nat>, a: nat, len: nat)
    requires Inv(s) && FindRegion(s, a, REAL_MEMORY) == None
    ensures Trans(s, ok, a, len) == []
  {
  }

  const U32_MAX: nat := U32_RANGE - 1

  /** The size of the next chunk. */
  function ChunkSize(avail: nat, left: nat): nat {
    var n := if avail < U32_MAX then avail else U32_MAX;
    if left < n then left else n
  }

  /** `vmm_guest_memory_read`: the bytes read are those of the longest run of
      guest bytes that translate. */
  method GuestRead(s: Aspace, target: map<nat, nat>, host: HostMem, gphys: nat, len: nat) returns (dst: seq<Byte>)
    requires Inv(s) && TargetsOk(s, target) && host.Valid() && len <= U32_MAX
    ensures AllBelow(Trans(s, host.ok, gphys, len), host.cells.Length)
    ensures dst == Load(host.cells[..], Trans(s, host.ok, gphys, len))
  {
    hide Inv, FindRegion, FindMapping, Trans, Extent, Tiled, TargetsOk;
    ghost var all, mem := Trans(s, host.ok, gphys, len), host.cells[..];
    TransBelow(s, host.ok, gphys, len, host.cells.Length);
    var a := gphys;
    dst := [];
    while |dst| < len
      invariant |dst| <= len && a == gphys + |dst| && |dst| <= |all|
      invariant all[|dst|..] == Trans(s, host.ok, a, len - |dst|)
      invariant dst == Load(mem, all[..|dst|])
    {
      var reg := FindForAccess(s, target, a);
      if reg.None? {
        NothingTranslates(s, host.ok, a, len - |dst|);
        break;
      }
      var r := s.regs[reg.value];
      FindMappingAvailable(r, a);
      var (h, avail) := FindMapping(r, a);
      var m := ChunkSize(avail, len - |dst|);
      var chunk := host.Read(h, m);
      if !Inside(r, a) {
        NothingTranslates(s, host.ok, a, len - |dst|);
      } else {
        ChunkTranslates(s, host.ok, a, len - |dst|, reg.value, m);
        LoadChunk(mem, all, |dst|, h, |chunk|, chunk);
      }
      if chunk == [] {
        break;
      }
      a := a + |chunk|;
      dst := dst + chunk;
    }
    assert all[..|dst|] == all;
  }

  lemma LoadChunk(mem: seq<Byte>, all: seq<nat>, d: nat, h: nat, n: nat, chunk: seq<Byte>)
    requires AllBelow(all, |mem|) && d <= |all| && n <= |all| - d && Run(h, n) == all[d..][..n]
    requires n == |chunk| && (n > 0 ==> h + n <= |mem| && chunk == mem[h..h + n])
    ensures Load(mem, all[..d]) + chunk == Load(mem, all[..d + n])
  {
    forall i | 0 <= i < n ensures chunk[i] == mem[all[d + i]] {
      assert all[d + i] == all[d..][..n][i] == h + i;
    }
  }

  /** `vmm_guest_memory_write`: the bytes of the longest run of guest bytes that
      translate are written, in order, and nothing else changes. */
  method GuestWrite(s: Aspace, target: map<nat, nat>, host: HostMem, gphys: nat, src: seq<Byte>) returns (done: nat)
    requires Inv(s) && TargetsOk(s, target) && host.Valid() && |src| <= U32_MAX
    modifies host.cells
    ensures AllBelow(Trans(s, host.ok, gphys, |src|), host.cells.Length)
    ensures done == |Trans(s, host.ok, gphys, |src|)|
    ensures host.cells[..] == Store(old(host.cells[..]), Trans(s, host.ok, gphys, |src|), src[..done])
  {
    hide Inv, FindRegion, FindMapping, Trans, Extent, Tiled, TargetsOk, Store, Spliced;
    ghost var all, mem := Trans(s, host.ok, gphys, |src|), host.cells[..];
    TransBelow(s, host.ok, gphys, |src|, host.cells.Length);
    StoreNothing(mem);
    var a := gphys;
    done := 0;
    while done < |src|
      invariant done <= |src| && a == gphys + done && done <= |all|
      invariant all[done..] == Trans(s, host.ok, a, |src| - done)
      invariant host.cells[..] == Store(mem, all[..done], src[..done])
    {
      var reg := FindForAccess(s, target, a);
      if reg.None? {
        NothingTranslates(s, host.ok, a, |src| - done);
        break;
      }
      var r := s.regs[reg.value];
      FindMappingAvailable(r, a);
      var (h, avail) := FindMapping(r, a);
      var m := ChunkSize(avail, |src| - done);
      ghost var before := host.cells[..];
      var n := host.Write(h, src[done..done + m]);
      if !Inside(r, a) {
        NothingTranslates(s, host.ok, a, |src| - done);
      } else {
        ChunkTranslates(s, host.ok, a, |src| - done, reg.value, m);
        StoreChunk(mem, before, host.cells[..], all, done, h, n, src, m);
      }
      if n == 0 {
        break;
      }
      a := a + n;
      done := done + n;
    }
    assert all[..done] == all;
  }

  lemma StoreNothing(mem: seq<Byte>)
    ensures Store(mem, [], []) == mem
  {
  }

  lemma StoreChunk(mem: seq<Byte>, before: seq<Byte>, after: seq<Byte>, all: seq<nat>, d: nat, h: nat, n: nat,
                   src: seq<Byte>, m: nat)
    requires AllBelow(all, |mem|) && d <= |all| && n <= |all| - d && Run(h, n) == all[d..][..n]
    requires d + n <= d + m <= |src| && before == Store(mem, all[..d], src[..d])
    requires if n == 0 then after == before else h + n <= |before| && after == Spliced(before, h, src[d..d + m][..n])
    ensures after == Store(mem, all[..d + n], src[..d + n])
  {
    hide Store, Spliced;
    var run, data := all[d..d + n], src[d..d + n];
    assert run == Run(h, n) == all[d..][..n] && data == src[d..d + m][..n];
    assert all[..d + n] == all[..d] + run && src[..d + n] == src[..d] + data;
    forall i | 0 <= i < n ensures run[i] < |mem| { assert run[i] == all[d + i]; }
    StoreAppend(mem, all[..d], src[..d], run, data);
    if n == 0 {
      StoreNothing(before);
    } else {
      StoreRun(before, h, data);
    }
  }

  /** A full write followed by a read returns the same bytes if and only if
      guest bytes that share a host byte were written the same value. */
  lemma WriteThenReadIff(s: Aspace, ok: set<nat>, mem: seq<Byte>, gphys: nat, src: seq<Byte>)
    requires Inv(s) && PagesThere(ok, |mem|) && |Trans(s, ok, gphys, |src|)| == |src|
    ensures var at := Trans(s, ok, gphys, |src|);
            AllBelow(at, |mem|) && (Load(Store(mem, at, src), at) == src <==> Agree(at, src))
  {
    TransBelow(s, ok, gphys, |src|, |mem|);
    ReadBackIff(mem, Trans(s, ok, gphys, |src|), src);
  }
}
