/** The page pool: hugepage-backed entries with a page bitmap each, held both
    in a search tree by address and in a list ordered by available pages. */
module PagePool {
  import opened Arith
  import opened Common
  import opened Frames
  import opened IntervalTree

  /** `struct vmm_pagepool_entry`: its pages, bitmap and available count, and
      the number of hugepages behind it. */
  datatype PoolEntry = PoolEntry(bank: Bank, hugepages: nat)

  /** `struct vmm_pagepool_ctrl`: the entries by number, the tree, the list, and
      the hugepages the host has granted and not got back, by address. */
  datatype Pool = Pool(entries: map<nat, PoolEntry>, tree: Tree, list: seq<nat>, granted: map<nat, nat>)

  function ItemOf(id: nat, e: PoolEntry): Item {
    Item(e.bank.start, End(e.bank), id)
  }

  // ----- the operations on values -----

  predicate ClearRun(b: Bank, cnt: nat, q: nat) {
    q + cnt <= b.frames && Range(q, cnt) !! b.used
  }

  /** First position from `q` on with `cnt` clear pages. */
  function FirstRun(b: Bank, cnt: nat, q: nat): (r: Option<nat>)
    ensures r.Some? ==> q <= r.value && ClearRun(b, cnt, r.value)
    ensures forall k: nat :: q <= k && (r.None? || k < r.value) ==> !ClearRun(b, cnt, k)
    decreases b.frames + 1 - q
  {
    if b.frames < q then None
    else if ClearRun(b, cnt, q) then Some(q)
    else FirstRun(b, cnt, q + 1)
  }

  /** `__pagepool_find_bmap`: the lowest run, or -1 without a request or a run. */
  function BmapPos(b: Bank, cnt: nat): (pos: int)
    ensures pos >= 0 ==> ClearRun(b, cnt, pos) && forall k: nat :: k < pos ==> !ClearRun(b, cnt, k)
    ensures pos < 0 ==> pos == -1 && (cnt == 0 || forall k: nat :: !ClearRun(b, cnt, k))
  {
    if cnt > 0 && FirstRun(b, cnt, 0).Some? then FirstRun(b, cnt, 0).value else -1
  }

  ghost predicate Listed(entries: map<nat, PoolEntry>, list: seq<nat>) {
    forall i :: 0 <= i < |list| ==> list[i] in entries
  }

  /** `__pagepool_find_alloc_entry`. */
  function AllocEntry(entries: map<nat, PoolEntry>, list: seq<nat>, cnt: nat): (r: Option<nat>)
    requires Listed(entries, list)
    ensures r.Some? ==> r.value in entries && BmapPos(entries[r.value].bank, cnt) > 0
  {
    if list == [] then None
    else
      var b := entries[list[0]].bank;
      if cnt < b.free && BmapPos(b, cnt) > 0 then Some(list[0]) else AllocEntry(entries, list[1..], cnt)
  }

  /** `id` put in front of the first entry with more pages available. */
  function Place(entries: map<nat, PoolEntry>, list: seq<nat>, id: nat): (r: seq<nat>)
    requires Listed(entries, list) && id in entries
    ensures Listed(entries, r)
    ensures forall x :: x in r <==> x in list || x == id
  {
    if list == [] then [id]
    else if entries[id].bank.free < entries[list[0]].bank.free then [id] + list
    else [list[0]] + Place(entries, list[1..], id)
  }

  /** `__pagepool_adjust`. */
  function Adjust(p: Pool, id: nat): (r: Pool)
    requires Listed(p.entries, p.list) && id in p.entries
    ensures Listed(r.entries, r.list)
  {
    WithoutListed(p.entries, p.list, id);
    p.(list := Place(p.entries, Without(p.list, id), id))
  }

  lemma WithoutListed(entries: map<nat, PoolEntry>, list: seq<nat>, id: nat)
    requires Listed(entries, list)
    ensures Listed(entries, Without(list, id))
  {
    var r := Without(list, id);
    forall i | 0 <= i < |r| ensures r[i] in entries { assert r[i] in r; }
  }

  /** An entry for at least `cnt` pages at `base`, in whole hugepages of 2^hs. */
  function NewEntry(cnt: nat, base: nat, hs: nat): (e: PoolEntry) {
    var size := RoundUp(cnt * PAGE, hs);
    PoolEntry(Bank(base, size / PAGE, {}, size / PAGE), Shr(size, hs))
  }

  /** `__pagepool_add_new_entry`; `None` for the failed bitmap allocation and
      for the tree's panic. */
  function AddEntry(p: Pool, hs: nat, cnt: nat, id: nat, base: nat, heapOk: bool): (r: Option<Pool>)
    requires Listed(p.entries, p.list)
    ensures r.Some? ==> id in r.value.entries && Listed(r.value.entries, r.value.list)
  {
    var e := NewEntry(cnt, base, hs);
    var t := Insert(p.tree, ItemOf(id, e));
    if cnt == 0 || !heapOk || t.None? then None
    else
      var p' := Pool(p.entries[id := e], t.value, p.list + [id], p.granted[base := e.hugepages]);
      Some(Adjust(p', id))
  }

  /** Sets the page bits of an entry and moves it to its place in the list. */
  function SetBank(p: Pool, id: nat, b: Bank): (r: Pool)
    requires Listed(p.entries, p.list) && id in p.entries
    ensures Listed(r.entries, r.list) && id in r.entries
  {
    Adjust(p.(entries := p.entries[id := p.entries[id].(bank := b)]), id)
  }

  /** `pagepool_alloc`; `None` is a `vmm_panic`. `id` and `base` stand for the
      new entry and the hugepages the host grants, `heapOk` for the heap. */
  function AllocSpec(p: Pool, hs: nat, cnt: nat, id: nat, base: nat, heapOk: bool)
    : (r: (Option<nat>, Pool))
    requires Listed(p.entries, p.list)
    ensures Listed(r.1.entries, r.1.list)
  {
    match AllocEntry(p.entries, p.list, cnt)
    case Some(eid) => TakePages(p, eid, cnt)
    case None =>
      match AddEntry(p, hs, cnt, id, base, heapOk)
      case None => (None, p)
      case Some(p') => TakePages(p', id, cnt)
  }

  /** The second half of `pagepool_alloc`, for the entry chosen. The negative
      position, on which the code has no plan, is `None` as well. */
  function TakePages(p: Pool, id: nat, cnt: nat): (r: (Option<nat>, Pool))
    requires Listed(p.entries, p.list) && id in p.entries
    ensures Listed(r.1.entries, r.1.list)
  {
    var b := p.entries[id].bank;
    var pos := BmapPos(b, cnt);
    if pos < 0 then (None, p) else (Some(FrameAddr(b, pos)), SetBank(p, id, Mark(b, pos, cnt)))
  }

  /** `__pagepool_del_entry`. */
  function DelEntry(p: Pool, id: nat): (r: Pool)
    requires Listed(p.entries, p.list) && id in p.entries
  {
    var e := p.entries[id];
    Pool(p.entries - {id}, Erase(p.tree, ItemOf(id, e)), Without(p.list, id), p.granted - {e.bank.start})
  }

  // ----- the invariant -----

  ghost function BlocksOf(entries: map<nat, PoolEntry>): (m: Blocks) {
    map id | id in entries :: entries[id].bank
  }

  /** The tree holds exactly the entries. */
  ghost predicate TreeOk(p: Pool) {
    && Bst(p.tree)
    && (forall x :: x in Items(p.tree) ==> x.val in p.entries && x == ItemOf(x.val, p.entries[x.val]))
    && (forall id :: id in p.entries ==> ItemOf(id, p.entries[id]) in Items(p.tree))
  }

  ghost predicate NoDuplicates(list: seq<nat>) {
    forall i, j :: 0 <= i < j < |list| ==> list[i] != list[j]
  }

  ghost predicate Ordered(entries: map<nat, PoolEntry>, list: seq<nat>)
    requires Listed(entries, list)
  {
    forall i, j :: 0 <= i < j < |list| ==> entries[list[i]].bank.free <= entries[list[j]].bank.free
  }

  /** The list holds exactly the entries, each once, by available pages. */
  ghost predicate ListOk(entries: map<nat, PoolEntry>, list: seq<nat>) {
    && Listed(entries, list) && NoDuplicates(list) && Ordered(entries, list)
    && forall id :: id in entries ==> id in list
  }

  ghost predicate HasEntry(entries: map<nat, PoolEntry>, base: nat) {
    exists id :: id in entries && entries[id].bank.start == base
  }

  /** The host's grants are exactly the entries' hugepages. */
  ghost predicate GrantsOk(p: Pool) {
    && (forall id :: id in p.entries ==>
          p.entries[id].bank.start in p.granted && p.granted[p.entries[id].bank.start] == p.entries[id].hugepages)
    && (forall base :: base in p.granted ==> HasEntry(p.entries, base))
  }

  ghost predicate Indexed(p: Pool) {
    TreeOk(p) && Listed(p.entries, p.list)
  }

  /** `pagepool_free`. */
  function FreeSpec(p: Pool, va: nat, cnt: nat): (r: (int, Pool))
    requires Indexed(p)
  {
    hide Bst;
    match Lookup(p.tree, va)
    case None => (VMM_ENOTAVAIL, p)
    case Some(x) =>
      var e := p.entries[x.val];
      if e.bank.frames - e.bank.free < cnt then (VMM_ENOTAVAIL, p)
      else
        var b := Clear(e.bank, (va - e.bank.start) / PAGE, cnt);
        if b.free == b.frames then
          (VMM_OK, DelEntry(p.(entries := p.entries[x.val := e.(bank := b)]), x.val))
        else (VMM_OK, SetBank(p, x.val, b))
  }

  /** No entry is wholly free. */
  ghost predicate AllBusy(p: Pool) {
    forall id :: id in p.entries ==> p.entries[id].bank.free < p.entries[id].bank.frames
  }

  /** Everything but the absence of wholly free entries. */
  ghost predicate Sound(p: Pool, live: Held) {
    TreeOk(p) && ListOk(p.entries, p.list) && GrantsOk(p) && Ledger(BlocksOf(p.entries), live)
  }

  ghost predicate Inv(p: Pool, live: Held) {
    Sound(p, live) && AllBusy(p)
  }

  // ----- the list -----

  lemma ConsSpec(entries: map<nat, PoolEntry>, h: nat, t: seq<nat>)
    requires Listed(entries, t) && NoDuplicates(t) && Ordered(entries, t) && h in entries && h !in t
    requires forall x :: x in t ==> entries[h].bank.free <= entries[x].bank.free
    ensures Listed(entries, [h] + t) && NoDuplicates([h] + t) && Ordered(entries, [h] + t)
  {
    forall i | 0 <= i < |t| ensures t[i] in t {}
  }

  lemma TailSpec(entries: map<nat, PoolEntry>, list: seq<nat>)
    requires list != [] && Listed(entries, list) && NoDuplicates(list) && Ordered(entries, list)
    ensures Listed(entries, list[1..]) && NoDuplicates(list[1..]) && Ordered(entries, list[1..])
    ensures list[0] !in list[1..] && list[0] in entries
    ensures forall x :: x in list[1..] ==> x in entries && entries[list[0]].bank.free <= entries[x].bank.free
  {
  }

  lemma {:induction false} WithoutSpec(entries: map<nat, PoolEntry>, list: seq<nat>, id: nat)
    requires Listed(entries, list) && NoDuplicates(list) && Ordered(entries, list)
    ensures var r := Without(list, id);
            && Listed(entries, r) && NoDuplicates(r) && Ordered(entries, r) && id !in r
            && forall x :: x in list && x != id ==> x in r
    decreases |list|
  {
    hide NoDuplicates, Ordered;
    WithoutListed(entries, list, id);
    if list != [] {
      TailSpec(entries, list);
      assert forall x :: x in list ==> x == list[0] || x in list[1..];
      if list[0] != id {
        WithoutSpec(entries, list[1..], id);
        ConsSpec(entries, list[0], Without(list[1..], id));
      }
    }
  }

  lemma {:induction false} PlaceSpec(entries: map<nat, PoolEntry>, list: seq<nat>, id: nat)
    requires Listed(entries, list) && NoDuplicates(list) && Ordered(entries, list)
    requires id in entries && id !in list
    ensures var r := Place(entries, list, id);
            NoDuplicates(r) && Ordered(entries, r)
    decreases |list|
  {
    hide NoDuplicates, Ordered;
    if list == [] {
      SingleSpec(entries, id);
    } else {
      TailSpec(entries, list);
      if entries[id].bank.free < entries[list[0]].bank.free {
        ConsSpec(entries, id, list);
      } else {
        PlaceSpec(entries, list[1..], id);
        ConsSpec(entries, list[0], Place(entries, list[1..], id));
      }
    }
  }

  lemma SingleSpec(entries: map<nat, PoolEntry>, id: nat)
    requires id in entries
    ensures Listed(entries, [id]) && NoDuplicates([id]) && Ordered(entries, [id])
  {
  }

  /** Changing one entry and adjusting it keeps the list in order. */
  lemma AdjustKeepsListOk(entries: map<nat, PoolEntry>, entries': map<nat, PoolEntry>, list: seq<nat>, id: nat)
    requires Listed(entries, list) && NoDuplicates(list) && Ordered(entries, list)
    requires id in entries' && entries'.Keys == entries.Keys + {id}
    requires forall x :: x in entries && x != id ==> entries'[x] == entries[x]
    requires forall x :: x in entries ==> x in list
    ensures Listed(entries', Without(list, id))
    ensures ListOk(entries', Place(entries', Without(list, id), id))
  {
    WithoutSpec(entries, list, id);
    var r := Without(list, id);
    forall i | 0 <= i < |r| ensures r[i] in entries' && entries'[r[i]] == entries[r[i]] { assert r[i] in r; }
    PlaceSpec(entries', r, id);
  }

  lemma {:induction false} WithoutAbsent(list: seq<nat>, id: nat)
    requires id !in list
    ensures Without(list, id) == list && Without(list + [id], id) == list
    decreases |list|
  {
    if list == [] {
      assert list + [id] == [id];
    } else {
      WithoutAbsent(list[1..], id);
      assert (list + [id])[1..] == list[1..] + [id];
    }
  }

  // ----- changing the pages of an entry -----

  lemma UpdateBlocks(entries: map<nat, PoolEntry>, id: nat, e: PoolEntry)
    ensures BlocksOf(entries[id := e]) == BlocksOf(entries)[id := e.bank]
  {
  }

  lemma SameShapeTree(p: Pool, id: nat, b: Bank)
    requires TreeOk(p) && GrantsOk(p) && id in p.entries
    requires b.start == p.entries[id].bank.start && b.frames == p.entries[id].bank.frames
    ensures var p' := p.(entries := p.entries[id := p.entries[id].(bank := b)]);
            TreeOk(p') && GrantsOk(p')
  {
    hide Bst, Items;
    var entries' := p.entries[id := p.entries[id].(bank := b)];
    forall k | k in p.entries
      ensures ItemOf(k, entries'[k]) == ItemOf(k, p.entries[k])
      ensures entries'[k].bank.start == p.entries[k].bank.start && entries'[k].hugepages == p.entries[k].hugepages {}
  }

  lemma SetBankKeepsSound(p: Pool, live: Held, id: nat, b: Bank, live': Held)
    requires Sound(p, live) && id in p.entries
    requires b.start == p.entries[id].bank.start && b.frames == p.entries[id].bank.frames
    requires Ledger(BlocksOf(p.entries)[id := b], live')
    ensures Sound(SetBank(p, id, b), live')
  {
    hide TreeOk, GrantsOk, Ledger, BlocksOf, Place, Without, Bst, Items;
    var entries' := p.entries[id := p.entries[id].(bank := b)];
    SameShapeTree(p, id, b);
    UpdateBlocks(p.entries, id, p.entries[id].(bank := b));
    AdjustKeepsListOk(p.entries, entries', p.list, id);
    TreeOnly(p.(entries := entries'), SetBank(p, id, b));
    GrantsOnly(p.(entries := entries'), SetBank(p, id, b));
  }

  // ----- entries come and go -----

  lemma NewEntryIsFree(cnt: nat, base: nat, hs: nat)
    requires PAGE_SHIFT <= hs
    ensures var b := NewEntry(cnt, base, hs).bank;
            && AllFree(b) && cnt <= b.frames && ClearRun(b, cnt, 0)
  {
    var size := RoundUp(cnt * PAGE, hs);
    AlignedToSmaller(size, PAGE_SHIFT, hs);
    PageAligned(size);
  }

  lemma AddTree(p: Pool, id: nat, e: PoolEntry)
    requires TreeOk(p) && id !in p.entries && e.bank.start <= End(e.bank)
    requires Insert(p.tree, ItemOf(id, e)).Some?
    ensures TreeOk(p.(entries := p.entries[id := e], tree := Insert(p.tree, ItemOf(id, e)).value))
    ensures forall k :: k in p.entries ==> Apart(e.bank, p.entries[k].bank)
  {
    hide Bst, Insert, Items;
    InsertKeepsBst(p.tree, ItemOf(id, e));
    forall k | k in p.entries ensures Apart(e.bank, p.entries[k].bank) {
      assert !Collide(ItemOf(id, e), ItemOf(k, p.entries[k]));
    }
  }

  lemma NewStartDiffers(p: Pool, e: PoolEntry, k: nat)
    requires AllBusy(p) && CountsOk(BlocksOf(p.entries)) && e.bank.frames > 0
    requires k in p.entries && Apart(e.bank, p.entries[k].bank)
    ensures p.entries[k].bank.start != e.bank.start
  {
    assert k in BlocksOf(p.entries);
  }

  lemma AddGrant(p: Pool, id: nat, e: PoolEntry)
    requires GrantsOk(p) && id !in p.entries
    requires forall k :: k in p.entries ==> p.entries[k].bank.start != e.bank.start
    ensures GrantsOk(p.(entries := p.entries[id := e], granted := p.granted[e.bank.start := e.hugepages]))
  {
    hide HasEntry;
    var granted' := p.granted[e.bank.start := e.hugepages];
    forall base | base in granted' ensures HasEntry(p.entries[id := e], base) {
      StillHasEntry(p.entries, id, e, base);
    }
  }

  lemma StillHasEntry(entries: map<nat, PoolEntry>, id: nat, e: PoolEntry, base: nat)
    requires id !in entries && (base == e.bank.start || HasEntry(entries, base))
    ensures HasEntry(entries[id := e], base)
  {
    var entries' := entries[id := e];
    if base == e.bank.start {
      assert id in entries';
    } else {
      var k :| k in entries && entries[k].bank.start == base;
      assert k in entries';
    }
  }

  lemma AddEntryKeepsSound(p: Pool, live: Held, hs: nat, cnt: nat, id: nat, base: nat, heapOk: bool)
    requires Inv(p, live) && PAGE_SHIFT <= hs && id !in p.entries && base % PAGE == 0
    requires AddEntry(p, hs, cnt, id, base, heapOk).Some?
    ensures var p' := AddEntry(p, hs, cnt, id, base, heapOk).value;
            && Sound(p', live) && p'.entries == p.entries[id := NewEntry(cnt, base, hs)]
  {
    hide TreeOk, GrantsOk, Ledger, BlocksOf, Place, Without, Bst, Items, NewEntry, Insert, AllFree, AllBusy;
    var e := NewEntry(cnt, base, hs);
    NewEntryIsFree(cnt, base, hs);
    NewEntryStart(cnt, base, hs);
    AddTree(p, id, e);
    PoolCounts(p, live);
    forall k | k in p.entries ensures p.entries[k].bank.start != e.bank.start { NewStartDiffers(p, e, k); }
    AddGrant(p, id, e);
    UpdateBlocks(p.entries, id, e);
    AddPoolBlock(p, live, id, e);
    WithoutAbsent(p.list, id);
    AdjustKeepsListOk(p.entries, p.entries[id := e], p.list, id);
    var t := Insert(p.tree, ItemOf(id, e)).value;
    TreeOnly(p.(entries := p.entries[id := e], tree := t), AddEntry(p, hs, cnt, id, base, heapOk).value);
    GrantsOnly(p.(entries := p.entries[id := e], granted := p.granted[e.bank.start := e.hugepages]),
               AddEntry(p, hs, cnt, id, base, heapOk).value);
  }

  lemma NewEntryStart(cnt: nat, base: nat, hs: nat)
    ensures NewEntry(cnt, base, hs).bank.start == base
  {
  }

  lemma PoolCounts(p: Pool, live: Held)
    requires Sound(p, live)
    ensures CountsOk(BlocksOf(p.entries))
  {
  }

  lemma AddPoolBlock(p: Pool, live: Held, id: nat, e: PoolEntry)
    requires Ledger(BlocksOf(p.entries), live) && id !in p.entries && e.bank.start % PAGE == 0 && AllFree(e.bank)
    requires forall k :: k in p.entries ==> Apart(e.bank, p.entries[k].bank)
    ensures Ledger(BlocksOf(p.entries)[id := e.bank], live)
  {
    hide Ledger, Apart, AllFree;
    AddBlockKeepsLedger(BlocksOf(p.entries), live, id, e.bank);
  }

  lemma TreeOnly(p: Pool, p': Pool)
    requires TreeOk(p) && p'.entries == p.entries && p'.tree == p.tree
    ensures TreeOk(p')
  {
  }

  lemma GrantsOnly(p: Pool, p': Pool)
    requires GrantsOk(p) && p'.entries == p.entries && p'.granted == p.granted
    ensures GrantsOk(p')
  {
  }

  lemma TakeKeepsSound(p: Pool, live: Held, id: nat, cnt: nat, va: nat, p': Pool)
    requires Sound(p, live) && Listed(p.entries, p.list) && id in p.entries && cnt > 0
    requires TakePages(p, id, cnt) == (Some(va), p')
    ensures Sound(p', live + {(va, cnt * PAGE)})
  {
    hide TreeOk, GrantsOk, ListOk, Ledger, BlocksOf, BmapPos, Range, SetBank, TakePages, Mark, Listed;
    var b := p.entries[id].bank;
    TakeHasRoom(p, id, cnt);
    var pos: nat := BmapPos(b, cnt);
    BlockOf(p.entries, id);
    MarkKeepsLedger(BlocksOf(p.entries), live, id, pos, cnt);
    MarkShape(b, pos, cnt);
    SetBankKeepsSound(p, live, id, Mark(b, pos, cnt), live + {RunOf(b, pos, cnt)});
    TakePagesIs(p, id, cnt);
  }

  lemma MarkShape(b: Bank, q: nat, n: nat)
    ensures Mark(b, q, n).start == b.start && Mark(b, q, n).frames == b.frames
  {
  }

  lemma TakeHasRoom(p: Pool, id: nat, cnt: nat)
    requires Listed(p.entries, p.list) && id in p.entries && TakePages(p, id, cnt).0.Some?
    ensures BmapPos(p.entries[id].bank, cnt) >= 0
  {
    hide Listed, BmapPos, Mark, SetBank;
  }

  lemma TakePagesIs(p: Pool, id: nat, cnt: nat)
    requires Listed(p.entries, p.list) && id in p.entries && BmapPos(p.entries[id].bank, cnt) >= 0
    ensures var b := p.entries[id].bank;
            var b' := Mark(b, BmapPos(b, cnt), cnt);
            && TakePages(p, id, cnt) == (Some(FrameAddr(b, BmapPos(b, cnt))), SetBank(p, id, b'))
            && SetBank(p, id, b').entries == p.entries[id := p.entries[id].(bank := b')]
  {
    hide Listed, BmapPos, Mark, Place, Without;
  }

  lemma BlockOf(entries: map<nat, PoolEntry>, id: nat)
    requires id in entries
    ensures id in BlocksOf(entries) && BlocksOf(entries)[id] == entries[id].bank
  {
  }

  lemma BusyAfterTake(p: Pool, live: Held, id: nat, q: nat, cnt: nat)
    requires Sound(p, live) && id in p.entries && cnt > 0
    requires forall k :: k in p.entries && k != id ==> p.entries[k].bank.free < p.entries[k].bank.frames
    ensures AllBusy(p.(entries := p.entries[id := p.entries[id].(bank := Mark(p.entries[id].bank, q, cnt))]))
  {
    hide TreeOk, GrantsOk, ListOk, Ledger, Range, BlocksOf;
    PoolCountOk(p, live, id);
    FreeAtMost(p.entries[id].bank);
  }

  lemma FreeAtMost(b: Bank)
    requires CountOk(b)
    ensures b.free <= b.frames
  {
    RangeSize(0, b.frames);
    SubsetSize(ClearFrames(b), Range(0, b.frames));
  }

  lemma PoolCountOk(p: Pool, live: Held, id: nat)
    requires Sound(p, live) && id in p.entries
    ensures CountOk(p.entries[id].bank)
  {
    assert id in BlocksOf(p.entries);
  }

  /** `pagepool_alloc` hands out a run of its own pages and keeps everything in
      order: counts, tree and list, hugepage grants, no wholly free entry. */
  lemma AllocKeepsInv(p: Pool, live: Held, hs: nat, cnt: nat, id: nat, base: nat, heapOk: bool)
    requires Inv(p, live) && PAGE_SHIFT <= hs && id !in p.entries && base % PAGE == 0
    ensures var (va, p') := AllocSpec(p, hs, cnt, id, base, heapOk);
            if va.Some? then Inv(p', live + {(va.value, cnt * PAGE)}) && (va.value, cnt * PAGE) !in live
            else p' == p
  {
    hide TreeOk, GrantsOk, ListOk, Ledger, BlocksOf, NewEntry, AddEntry, TakePages;
    SoundListed(p);
    var a := AllocEntry(p.entries, p.list, cnt);
    if a.Some? {
      TakePagesIs(p, a.value, cnt);
      var t := TakePages(p, a.value, cnt);
      TakeKeepsInv(p, live, a.value, cnt, t.0.value, t.1);
    } else if AddEntry(p, hs, cnt, id, base, heapOk).Some? {
      var p' := AddEntry(p, hs, cnt, id, base, heapOk).value;
      AddEntryKeepsSound(p, live, hs, cnt, id, base, heapOk);
      NewEntryIsFree(cnt, base, hs);
      AddEntryNonZero(p, hs, cnt, id, base, heapOk);
      TakePagesIs(p', id, cnt);
      var t := TakePages(p', id, cnt);
      TakeKeepsInv(p', live, id, cnt, t.0.value, t.1);
    }
  }

  lemma AddEntryNonZero(p: Pool, hs: nat, cnt: nat, id: nat, base: nat, heapOk: bool)
    requires Listed(p.entries, p.list) && AddEntry(p, hs, cnt, id, base, heapOk).Some?
    ensures cnt > 0
  {
  }

  lemma TakeKeepsInv(p: Pool, live: Held, id: nat, cnt: nat, va: nat, p': Pool)
    requires Listed(p.entries, p.list) && id in p.entries && TakePages(p, id, cnt) == (Some(va), p')
    requires forall k :: k in p.entries && k != id ==> p.entries[k].bank.free < p.entries[k].bank.frames
    requires Sound(p, live)
    ensures Inv(p', live + {(va, cnt * PAGE)}) && (va, cnt * PAGE) !in live
  {
    hide TreeOk, GrantsOk, ListOk, Ledger, BlocksOf, Range, TakePages, FirstRun, Place, Without, Mark, Sound, Listed;
    var b := p.entries[id].bank;
    TakeHasRoom(p, id, cnt);
    var pos: nat := BmapPos(b, cnt);
    TakeKeepsSound(p, live, id, cnt, va, p');
    TakePagesIs(p, id, cnt);
    BusyAfterTake(p, live, id, pos, cnt);
    RunNotLive(p, live, id, pos, cnt);
  }

  lemma RunNotLive(p: Pool, live: Held, id: nat, q: nat, cnt: nat)
    requires Sound(p, live) && id in p.entries && cnt > 0 && ClearRun(p.entries[id].bank, cnt, q)
    ensures RunOf(p.entries[id].bank, q, cnt) !in live
  {
    hide TreeOk, GrantsOk, ListOk, Ledger;
    var h := RunOf(p.entries[id].bank, q, cnt);
    if h in live {
      NewRunDisjoint(BlocksOf(p.entries), live, id, q, cnt, h);
    }
  }

  /** The negative position is never met: allocation panics exactly when no
      entry has room and no new one can be set up. */
  lemma AllocPanicsIff(p: Pool, hs: nat, cnt: nat, id: nat, base: nat, heapOk: bool)
    requires Listed(p.entries, p.list) && PAGE_SHIFT <= hs
    ensures AllocSpec(p, hs, cnt, id, base, heapOk).0.None? <==>
              && AllocEntry(p.entries, p.list, cnt).None?
              && (cnt == 0 || !heapOk || Insert(p.tree, ItemOf(id, NewEntry(cnt, base, hs))).None?)
  {
    hide Insert, NewEntry, Place, Without;
    NewEntryIsFree(cnt, base, hs);
  }

  /** Somewhere in the entry there are `cnt` clear pages in a row. */
  ghost predicate HasRun(b: Bank, cnt: nat) { exists q: nat :: ClearRun(b, cnt, q) }

  lemma RunElsewhere(b: Bank, cnt: nat)
    ensures BmapPos(b, cnt) > 0 <==> cnt > 0 && HasRun(b, cnt) && !ClearRun(b, cnt, 0)
  {
    hide Range;
  }

  /** A new entry is set up although entries of the list have room, exactly when
      in each of these the run would take all its available pages or there is
      one at its start. */
  lemma {:induction false} RoomIsPassedOverIff(entries: map<nat, PoolEntry>, list: seq<nat>, cnt: nat)
    requires Listed(entries, list) && cnt > 0
    ensures AllocEntry(entries, list, cnt).None? <==>
              forall i :: 0 <= i < |list| && HasRun(entries[list[i]].bank, cnt) ==>
                entries[list[i]].bank.free <= cnt || ClearRun(entries[list[i]].bank, cnt, 0)
    decreases |list|
  {
    hide ClearRun, BmapPos, HasRun;
    if list != [] {
      RunElsewhere(entries[list[0]].bank, cnt);
      RoomIsPassedOverIff(entries, list[1..], cnt);
    }
  }

  /** An entry that can be reused: more pages are available than asked for, and
      the first run of them is not at the start. */
  ghost predicate Reusable(b: Bank, cnt: nat) {
    cnt < b.free && HasRun(b, cnt) && !ClearRun(b, cnt, 0)
  }

  /** Best fit: of the entries that can be reused the pool takes one with the
      fewest pages available. */
  lemma {:induction false} AllocIsBestFit(entries: map<nat, PoolEntry>, list: seq<nat>, cnt: nat, id: nat)
    requires Listed(entries, list) && Ordered(entries, list) && cnt > 0
    requires id in list && Reusable(entries[id].bank, cnt)
    ensures var r := AllocEntry(entries, list, cnt);
            r.Some? && Reusable(entries[r.value].bank, cnt) && entries[r.value].bank.free <= entries[id].bank.free
    decreases |list|
  {
    hide ClearRun, BmapPos, HasRun;
    RunElsewhere(entries[list[0]].bank, cnt);
    var i :| 0 <= i < |list| && list[i] == id;
    if !Reusable(entries[list[0]].bank, cnt) {
      assert i > 0 && list[1..][i - 1] == id;
      AllocIsBestFit(entries, list[1..], cnt, id);
    }
  }

  /** Four pages of which the last is taken. */
  const ROOMY := PoolEntry(Bank(0, 4, {3}, 3), 1)

  /** A request for one page finds no entry, although three pages are clear. */
  lemma ThreeClearPagesUnused()
    ensures ClearRun(ROOMY.bank, 1, 0) && CountOk(ROOMY.bank)
    ensures Listed(map[0 := ROOMY], [0]) && AllocEntry(map[0 := ROOMY], [0], 1).None?
  {
    assert ClearFrames(ROOMY.bank) == {0, 1, 2};
    assert ClearRun(ROOMY.bank, 1, 0);
    RoomIsPassedOverIff(map[0 := ROOMY], [0], 1);
  }

  // ----- hugepages -----

  /** The hugepages behind every entry are exactly its pages. */
  ghost predicate HugeOk(p: Pool, hs: nat) {
    forall id :: id in p.entries ==> p.entries[id].hugepages * Pow2(hs) == p.entries[id].bank.frames * PAGE
  }

  /** A new entry is made of the fewest hugepages that hold the request. */
  lemma NewEntrySize(cnt: nat, base: nat, hs: nat)
    requires PAGE_SHIFT <= hs
    ensures var e := NewEntry(cnt, base, hs);
            && e.hugepages * Pow2(hs) == e.bank.frames * PAGE
            && cnt * PAGE <= e.hugepages * Pow2(hs) < cnt * PAGE + Pow2(hs)
  {
    hide Aligned, Pow2, RoundUp, Shr, LowBits;
    var size := RoundUp(cnt * PAGE, hs);
    AlignedToSmaller(size, PAGE_SHIFT, hs);
    PageAligned(size);
    LowBitsSplit(size, hs);
    ShrSplit(size, hs);
  }

  /** Neither allocating nor freeing parts an entry from its hugepages. */
  lemma AllocKeepsHuge(p: Pool, hs: nat, cnt: nat, id: nat, base: nat, heapOk: bool)
    requires Listed(p.entries, p.list) && HugeOk(p, hs) && PAGE_SHIFT <= hs
    ensures HugeOk(AllocSpec(p, hs, cnt, id, base, heapOk).1, hs)
  {
    hide Place, Without, NewEntry, Insert, BmapPos, Range, Pow2;
    NewEntrySize(cnt, base, hs);
  }

  lemma FreeKeepsHuge(p: Pool, hs: nat, va: nat, cnt: nat)
    requires Indexed(p) && HugeOk(p, hs)
    ensures HugeOk(FreeSpec(p, va, cnt).1, hs)
  {
    hide Place, Without, Bst, Lookup, Erase, Range, Pow2;
  }

  // ----- taking pages back -----

  lemma UsedAtLeast(b: Bank, q: nat, cnt: nat)
    requires CountOk(b) && q + cnt <= b.frames && Range(q, cnt) <= b.used
    ensures cnt <= b.frames - b.free
  {
    RangeSize(0, b.frames);
    RangeSize(q, cnt);
    SubsetSize(ClearFrames(b), Range(0, b.frames) - Range(q, cnt));
  }

  lemma DropTree(p: Pool, id: nat)
    requires TreeOk(p) && id in p.entries
    ensures TreeOk(p.(entries := p.entries - {id}, tree := Erase(p.tree, ItemOf(id, p.entries[id]))))
  {
    hide Bst, Erase, Items;
    EraseKeepsBst(p.tree, ItemOf(id, p.entries[id]));
  }

  lemma DropList(p: Pool, id: nat)
    requires ListOk(p.entries, p.list) && id in p.entries
    ensures ListOk(p.entries - {id}, Without(p.list, id))
  {
    WithoutSpec(p.entries, p.list, id);
    var r := Without(p.list, id);
    forall i | 0 <= i < |r| ensures r[i] in p.entries - {id} { assert r[i] in r; }
  }

  lemma DropGrant(p: Pool, id: nat)
    requires GrantsOk(p) && id in p.entries
    requires forall k :: k in p.entries && k != id ==> p.entries[k].bank.start != p.entries[id].bank.start
    ensures GrantsOk(p.(entries := p.entries - {id}, granted := p.granted - {p.entries[id].bank.start}))
  {
    var entries', granted' := p.entries - {id}, p.granted - {p.entries[id].bank.start};
    forall base | base in granted' ensures HasEntry(entries', base) {
      var k :| k in p.entries && p.entries[k].bank.start == base;
      assert k in entries';
    }
  }

  lemma StartsDiffer(p: Pool, live: Held, id: nat, k: nat)
    requires Sound(p, live) && id in p.entries && k in p.entries && k != id
    requires p.entries[id].bank.frames > 0 && p.entries[k].bank.frames > 0
    ensures p.entries[k].bank.start != p.entries[id].bank.start
  {
    var m := BlocksOf(p.entries);
    assert k in m && id in m && Apart(m[id], m[k]);
  }

  lemma SoundListed(p: Pool)
    requires ListOk(p.entries, p.list)
    ensures Listed(p.entries, p.list)
  {
  }

  lemma DropBlocksOf(entries: map<nat, PoolEntry>, id: nat)
    ensures BlocksOf(entries - {id}) == BlocksOf(entries) - {id}
  {
  }

  /** Deleting the entry `id`, whose pages `b` have just become all clear. */
  lemma DelEntryKeepsSound(p: Pool, live: Held, id: nat, b: Bank, live': Held)
    requires Sound(p, live) && id in p.entries
    requires b.start == p.entries[id].bank.start && b.frames == p.entries[id].bank.frames
    requires Ledger(BlocksOf(p.entries)[id := b], live') && b.used !! Range(0, b.frames)
    requires forall k :: k in p.entries ==> p.entries[k].bank.frames > 0
    ensures Sound(DelEntry(p.(entries := p.entries[id := p.entries[id].(bank := b)]), id), live')
  {
    hide TreeOk, GrantsOk, ListOk, Ledger, BlocksOf, DelEntry, Range;
    SoundListed(p);
    DelIgnoresPages(p, id, b);
    DropTree(p, id);
    DropList(p, id);
    forall k | k in p.entries && k != id ensures p.entries[k].bank.start != p.entries[id].bank.start {
      StartsDiffer(p, live, id, k);
    }
    DropGrant(p, id);
    DelParts(p, id);
    var m := BlocksOf(p.entries);
    DropBlockKeepsLedger(m[id := b], live', id);
    assert m[id := b] - {id} == m - {id};
    DropBlocksOf(p.entries, id);
  }

  lemma DelIgnoresPages(p: Pool, id: nat, b: Bank)
    requires Listed(p.entries, p.list) && id in p.entries
    requires b.start == p.entries[id].bank.start && b.frames == p.entries[id].bank.frames
    ensures DelEntry(p.(entries := p.entries[id := p.entries[id].(bank := b)]), id) == DelEntry(p, id)
  {
    hide Erase, Without;
    assert p.entries[id := p.entries[id].(bank := b)] - {id} == p.entries - {id};
  }

  lemma DelParts(p: Pool, id: nat)
    requires Listed(p.entries, p.list) && id in p.entries
    requires TreeOk(p.(entries := p.entries - {id}, tree := Erase(p.tree, ItemOf(id, p.entries[id]))))
    requires GrantsOk(p.(entries := p.entries - {id}, granted := p.granted - {p.entries[id].bank.start}))
    ensures TreeOk(DelEntry(p, id)) && GrantsOk(DelEntry(p, id))
    ensures DelEntry(p, id).entries == p.entries - {id} && DelEntry(p, id).list == Without(p.list, id)
  {
    hide TreeOk, GrantsOk, Erase, Without;
    var p' := DelEntry(p, id);
    TreeOnly(p.(entries := p.entries - {id}, tree := p'.tree), p');
    GrantsOnly(p.(entries := p.entries - {id}, granted := p'.granted), p');
  }

  /** The entry that a live allocation belongs to is the one the tree finds. */
  lemma LiveEntry(p: Pool, live: Held, va: nat, cnt: nat) returns (id: nat, q: nat)
    requires Sound(p, live) && (va, cnt * PAGE) in live
    ensures id in p.entries && Lookup(p.tree, va) == Some(ItemOf(id, p.entries[id]))
    ensures var b := p.entries[id].bank;
            && cnt > 0 && (va, cnt * PAGE) == RunOf(b, q, cnt) && q + cnt <= b.frames
            && b.start <= va && q == (va - b.start) / PAGE
            && Range(q, cnt) <= b.used && CountOk(b)
  {
    hide GrantsOk, ListOk, Bst, Lookup, Items, CountsOk, HeldDisjoint, BitsMatch, BlocksOk, Range;
    var m := BlocksOf(p.entries);
    var h := (va, cnt * PAGE);
    assert HeldOk(m, h);
    id :| id in m && Within(m[id], h);
    var n;
    q, n := HeldIsRun(m, live, id, h);
    HeldBitsSet(m, live, id, q, n);
    PoolCountOk(p, live, id);
    LookupIsScan(p.tree, va, ItemOf(id, p.entries[id]));
  }

  lemma ClearAll(b: Bank)
    requires CountOk(b) && b.free == b.frames
    ensures b.used !! Range(0, b.frames)
  {
    hide Range;
    RangeSize(0, b.frames);
    FullSubset(ClearFrames(b), Range(0, b.frames));
  }

  lemma BusyFrames(p: Pool, live: Held, k: nat)
    requires Inv(p, live) && k in p.entries
    ensures p.entries[k].bank.frames > 0
  {
    PoolCountOk(p, live, k);
  }

  /** `pagepool_free` of a live allocation succeeds and keeps everything in
      order; an entry that becomes wholly free goes, with its hugepages. */
  lemma FreeKeepsInv(p: Pool, live: Held, va: nat, cnt: nat)
    requires Inv(p, live) && (va, cnt * PAGE) in live
    ensures var (rc, p') := FreeSpec(p, va, cnt);
            rc == VMM_OK && Inv(p', live - {(va, cnt * PAGE)})
  {
    hide TreeOk, GrantsOk, ListOk, Ledger, BlocksOf, Lookup, Range, CountOk, DelEntry, SetBank;
    SoundListed(p);
    var id, q := LiveEntry(p, live, va, cnt);
    var b := p.entries[id].bank;
    var live' := live - {(va, cnt * PAGE)};
    UsedAtLeast(b, q, cnt);
    BlockOf(p.entries, id);
    ClearKeepsLedger(BlocksOf(p.entries), live, id, q, cnt);
    ClearKeepsCount(b, q, cnt);
    var b' := Clear(b, q, cnt);
    forall k | k in p.entries ensures p.entries[k].bank.frames > 0 { BusyFrames(p, live, k); }
    if b'.free == b'.frames {
      ClearAll(b');
      DelEntryKeepsSound(p, live, id, b', live');
      DelEntryRest(p, id, b');
    } else {
      SetBankKeepsSound(p, live, id, b', live');
      SetBankRest(p, id, b');
      FreeAtMost(b');
    }
  }

  /** A free fails, and changes nothing, exactly when the address lies in no entry
      or more pages are given back than its entry has taken. */
  lemma FreeAnswers(p: Pool, va: nat, cnt: nat)
    requires Indexed(p)
    ensures var (rc, p') := FreeSpec(p, va, cnt);
            && (rc == VMM_OK || (rc == VMM_ENOTAVAIL && p' == p))
            && (rc == VMM_OK <==>
                  exists id :: id in p.entries && p.entries[id].bank.start <= va < End(p.entries[id].bank)
                               && cnt <= p.entries[id].bank.frames - p.entries[id].bank.free)
  {
    hide Bst, Lookup, Items, DelEntry, SetBank, Range, Listed;
    if id :| id in p.entries && p.entries[id].bank.start <= va < End(p.entries[id].bank)
             && cnt <= p.entries[id].bank.frames - p.entries[id].bank.free {
      LookupIsScan(p.tree, va, ItemOf(id, p.entries[id]));
    }
  }

  lemma DelEntryRest(p: Pool, id: nat, b: Bank)
    requires Listed(p.entries, p.list) && id in p.entries && AllBusy(p)
    ensures AllBusy(DelEntry(p.(entries := p.entries[id := p.entries[id].(bank := b)]), id))
  {
  }

  lemma SetBankRest(p: Pool, id: nat, b: Bank)
    requires Listed(p.entries, p.list) && id in p.entries
    ensures SetBank(p, id, b).entries == p.entries[id := p.entries[id].(bank := b)]
  {
  }

  lemma NoEntryLeft(p: Pool, id: nat)
    requires Inv(p, {})
    ensures id !in p.entries
  {
    hide TreeOk, GrantsOk, ListOk, Ledger;
    if id in p.entries {
      NothingHeldAllFree(BlocksOf(p.entries), id);
    }
  }

  /** Freeing everything empties the pool and returns every hugepage. */
  lemma FreeingAllEmptiesPool(p: Pool)
    requires Inv(p, {})
    ensures p.entries == map[] && p.list == [] && p.tree == Leaf && p.granted == map[]
  {
    hide Ledger, Bst, Ordered;
    assert p.tree.Node? ==> p.tree.item in Items(p.tree);
    assert p.list != [] ==> p.list[0] in p.entries;
    forall id ensures id !in p.entries { NoEntryLeft(p, id); }
  }

  // ----- runs -----

  datatype Op =
    | AllocOp(cnt: nat, id: nat, base: nat, heapOk: bool)
    | FreeOp(va: nat, cnt: nat)

  datatype State = State(pool: Pool, live: Held)

  /** The call returns; a new entry gets a number of its own and page-aligned
      memory; only live allocations are freed. */
  ghost predicate Allowed(s: State, hs: nat, op: Op)
    requires Indexed(s.pool)
  {
    match op
    case AllocOp(cnt, id, base, heapOk) =>
      && id !in s.pool.entries && base % PAGE == 0
      && AllocSpec(s.pool, hs, cnt, id, base, heapOk).0.Some?
    case FreeOp(va, cnt) => (va, cnt * PAGE) in s.live
  }

  ghost function Step(s: State, hs: nat, op: Op): State
    requires Indexed(s.pool)
  {
    match op
    case AllocOp(cnt, id, base, heapOk) =>
      var (va, p) := AllocSpec(s.pool, hs, cnt, id, base, heapOk);
      State(p, if va.Some? then s.live + {(va.value, cnt * PAGE)} else s.live)
    case FreeOp(va, cnt) => State(FreeSpec(s.pool, va, cnt).1, s.live - {(va, cnt * PAGE)})
  }

  /** A run: each state follows from the one before by an allowed call. */
  ghost predicate IsRun(hs: nat, states: seq<State>, ops: seq<Op>) {
    && |states| == |ops| + 1
    && forall i :: 0 <= i < |ops| ==>
         && Indexed(states[i].pool)
         && Allowed(states[i], hs, ops[i]) && states[i + 1] == Step(states[i], hs, ops[i])
  }

  /** Over every run from the empty pool the invariant holds in every state. */
  lemma {:induction false} EveryRunKeepsInv(hs: nat, states: seq<State>, ops: seq<Op>, n: nat)
    requires PAGE_SHIFT <= hs && IsRun(hs, states, ops) && n <= |ops|
    requires states[0] == State(Pool(map[], Leaf, [], map[]), {})
    ensures Inv(states[n].pool, states[n].live)
    decreases n
  {
    if n == 0 {
      EmptyPoolIsGood();
    } else {
      hide Inv, AllocSpec, FreeSpec;
      EveryRunKeepsInv(hs, states, ops, n - 1);
      var s := states[n - 1];
      assert Allowed(s, hs, ops[n - 1]) && states[n] == Step(s, hs, ops[n - 1]);
      match ops[n - 1]
      case AllocOp(cnt, id, base, heapOk) => AllocKeepsInv(s.pool, s.live, hs, cnt, id, base, heapOk);
      case FreeOp(va, cnt) => FreeKeepsInv(s.pool, s.live, va, cnt);
    }
  }

  /** Over every run from the empty pool the hugepages behind each entry are
      exactly its pages. */
  lemma {:induction false} EveryRunKeepsHuge(hs: nat, states: seq<State>, ops: seq<Op>, n: nat)
    requires PAGE_SHIFT <= hs && IsRun(hs, states, ops) && n <= |ops|
    requires states[0] == State(Pool(map[], Leaf, [], map[]), {})
    ensures HugeOk(states[n].pool, hs)
    decreases n
  {
    hide AllocSpec, FreeSpec, HugeOk, TreeOk, Listed;
    if n == 0 {
      NoEntryIsHuge(hs);
    } else {
      EveryRunKeepsHuge(hs, states, ops, n - 1);
      var s := states[n - 1];
      assert Allowed(s, hs, ops[n - 1]) && states[n] == Step(s, hs, ops[n - 1]);
      match ops[n - 1]
      case AllocOp(cnt, id, base, heapOk) => AllocKeepsHuge(s.pool, hs, cnt, id, base, heapOk);
      case FreeOp(va, cnt) => FreeKeepsHuge(s.pool, hs, va, cnt);
    }
  }

  lemma NoEntryIsHuge(hs: nat)
    ensures HugeOk(Pool(map[], Leaf, [], map[]), hs)
  {
  }

  lemma EmptyPoolIsGood()
    ensures Inv(Pool(map[], Leaf, [], map[]), {})
  {
  }

  // ----- the pool in place -----

  /** `__pagepool_find_bmap` as a loop. */
  method FindBmap(b: Bank, cnt: nat) returns (pos: int)
    ensures pos == BmapPos(b, cnt)
  {
    if cnt == 0 {
      return -1;
    }
    var i, free, start: nat := 0, 0, 0;
    while i < b.frames
      invariant i <= b.frames && start <= i && free == i - start < cnt
      invariant Range(start, free) !! b.used
      invariant forall q: nat :: q < start ==> !(Range(q, cnt) !! b.used)
    {
      if i in b.used {
        forall q: nat | q < i + 1 ensures !(Range(q, cnt) !! b.used) {
          if start <= q { assert i in Range(q, cnt); }
        }
        start, free := i + 1, 0;
      } else {
        free := free + 1;
        assert Range(start, free) == Range(start, free - 1) + {i};
      }
      if cnt == free {
        assert ClearRun(b, cnt, start);
        return start;
      }
      i := i + 1;
    }
    pos := -1;
  }

  lemma PlaceStep(entries: map<nat, PoolEntry>, list: seq<nat>, id: nat, k: nat)
    requires Listed(entries, list) && id in entries && k <= |list|
    ensures Place(entries, list[k..], id) ==
              if k == |list| || entries[id].bank.free < entries[list[k]].bank.free then [id] + list[k..]
              else [list[k]] + Place(entries, list[k + 1..], id)
  {
    if k < |list| { assert list[k..][1..] == list[k + 1..]; }
  }

  class PoolCtrl {
    const hs: nat
    var entries: map<nat, PoolEntry>
    var tree: Tree
    var list: seq<nat>
    var granted: map<nat, nat>

    ghost function Value(): Pool
      reads this
    {
      Pool(entries, tree, list, granted)
    }

    /** An empty pool over hugepages of size 2^hs. */
    constructor (hs: nat)
      ensures this.hs == hs && Value() == Pool(map[], Leaf, [], map[])
    {
      this.hs := hs;
      entries, tree, list, granted := map[], Leaf, [], map[];
    }

    /** `__pagepool_find_alloc_entry`. */
    method FindAllocEntry(cnt: nat) returns (r: Option<nat>)
      requires Listed(entries, list)
      ensures r == AllocEntry(entries, list, cnt)
    {
      var i := 0;
      assert list[0..] == list;
      while i < |list|
        invariant 0 <= i <= |list|
        invariant AllocEntry(entries, list, cnt) == AllocEntry(entries, list[i..], cnt)
      {
        var b := entries[list[i]].bank;
        var pos := FindBmap(b, cnt);
        if cnt < b.free && pos > 0 {
          return Some(list[i]);
        }
        assert list[i..][1..] == list[i + 1..];
        i := i + 1;
      }
      r := None;
    }

    /** `__pagepool_adjust`: takes the entry off the list and puts it in front
        of the first entry with more pages available. */
    method AdjustEntry(id: nat)
      requires Listed(entries, list) && id in entries
      modifies this`list
      ensures Value() == Adjust(old(Value()), id)
    {
      hide Place, Without;
      WithoutListed(entries, list, id);
      var rest := Without(list, id);
      var k := 0;
      assert rest[0..] == rest;
      while k < |rest| && !(entries[id].bank.free < entries[rest[k]].bank.free)
        invariant 0 <= k <= |rest|
        invariant Place(entries, rest, id) == rest[..k] + Place(entries, rest[k..], id)
      {
        PlaceStep(entries, rest, id, k);
        k := k + 1;
      }
      PlaceStep(entries, rest, id, k);
      list := rest[..k] + [id] + rest[k..];
    }

    /** `__pagepool_add_new_entry`. */
    method AddNewEntry(cnt: nat, id: nat, base: nat, heapOk: bool) returns (ok: bool)
      requires Listed(entries, list)
      modifies this
      ensures ok == AddEntry(old(Value()), hs, cnt, id, base, heapOk).Some?
      ensures Value() == if ok then AddEntry(old(Value()), hs, cnt, id, base, heapOk).value else old(Value())
    {
      hide NewEntry, Insert, Place, Without;
      var e := NewEntry(cnt, base, hs);
      if cnt == 0 || !heapOk {
        return false;
      }
      var t := Insert(tree, ItemOf(id, e));
      if t.None? {
        return false;
      }
      NewEntryStart(cnt, base, hs);
      entries, tree, list := entries[id := e], t.value, list + [id];
      granted := granted[base := e.hugepages];
      AdjustEntry(id);
      ok := true;
    }

    /** `pagepool_alloc`. */
    method Alloc(cnt: nat, id: nat, base: nat, heapOk: bool) returns (va: Option<nat>)
      requires Listed(entries, list)
      modifies this
      ensures (va, Value()) == AllocSpec(old(Value()), hs, cnt, id, base, heapOk)
    {
      hide NewEntry, AddEntry, Place, Without, FirstRun;
      var found := FindAllocEntry(cnt);
      var eid := id;
      if found.Some? {
        eid := found.value;
      } else {
        var ok := AddNewEntry(cnt, id, base, heapOk);
        if !ok {
          return None;
        }
      }
      var b := entries[eid].bank;
      var pos := FindBmap(b, cnt);
      if pos < 0 {
        return None;
      }
      entries := entries[eid := entries[eid].(bank := Mark(b, pos, cnt))];
      AdjustEntry(eid);
      va := Some(FrameAddr(b, pos));
    }

    /** `pagepool_free`. */
    method Free(va: nat, cnt: nat) returns (rc: int)
      requires Indexed(Value())
      modifies this
      ensures (rc, Value()) == FreeSpec(old(Value()), va, cnt)
    {
      hide Bst, Lookup, Place, Without, Erase;
      var x := Find(tree, va);
      if x.None? {
        return VMM_ENOTAVAIL;
      }
      var id := x.value.val;
      var e := entries[id];
      if e.bank.frames - e.bank.free < cnt {
        return VMM_ENOTAVAIL;
      }
      e := e.(bank := Clear(e.bank, (va - e.bank.start) / PAGE, cnt));
      entries := entries[id := e];
      if e.bank.free == e.bank.frames {
        tree, list := Erase(tree, ItemOf(id, e)), Without(list, id);
        granted := granted - {e.bank.start};
        entries := entries - {id};
      } else {
        AdjustEntry(id);
      }
      rc := VMM_OK;
    }
  }
}
