/** The memory-map hash of the host address space: reference-counted slots,
    indexed by physical address through a search tree. */
module MemHash {
  import opened Common
  import opened IntervalTree

  /** `struct host_mhash_entry`; a slot is free when `ref` is zero. */
  datatype Entry = Entry(pa: nat, va: nat, sz: nat, flags: nat, ref: nat)

  const FREE_ENTRY := Entry(0, 0, 0, 0, 0)

  datatype Hash = Hash(entry: seq<Entry>, tree: Tree)

  /** Return code of an operation, or a `vmm_panic`, which does not return. */
  datatype Outcome = Panic | Code(rc: int)

  function ItemOf(entry: seq<Entry>, i: nat): Item
    requires i < |entry|
  {
    Item(entry[i].pa, entry[i].pa + entry[i].sz, i)
  }

  /** Every interval listed is a slot in use. */
  ghost predicate ListedAreUsed(entry: seq<Entry>, items: set<Item>) {
    forall x :: x in items ==> x.val < |entry| && entry[x.val].ref > 0 && x == ItemOf(entry, x.val)
  }

  /** Every slot in use is listed. */
  ghost predicate UsedAreListed(entry: seq<Entry>, items: set<Item>) {
    forall i: nat :: i < |entry| && entry[i].ref > 0 ==> ItemOf(entry, i) in items
  }

  /** The tree is a search tree that holds exactly the slots in use. */
  ghost predicate Good(h: Hash) {
    Bst(h.tree) && ListedAreUsed(h.entry, Items(h.tree)) && UsedAreListed(h.entry, Items(h.tree))
  }

  // ----- the operations on values -----

  /** First free slot from `i` on. */
  function FirstFree(entry: seq<Entry>, i: nat): (r: Option<nat>)
    ensures r.Some? ==> i <= r.value < |entry| && entry[r.value].ref == 0
    ensures forall j: nat :: i <= j < |entry| && (r.None? || j < r.value) ==> entry[j].ref > 0
    decreases |entry| - i
  {
    if |entry| <= i then None
    else if entry[i].ref == 0 then Some(i)
    else FirstFree(entry, i + 1)
  }

  /** Free slots among the first `n`. */
  function FreeBelow(entry: seq<Entry>, n: nat): (r: nat)
    requires n <= |entry|
  {
    if n == 0 then 0 else FreeBelow(entry, n - 1) + (if entry[n - 1].ref == 0 then 1 else 0)
  }

  /** The range test of `host_mhash_add` and `host_mhash_del`. */
  predicate OutOfEntry(e: Entry, pa: nat, va: nat, sz: nat) {
    va < e.va || e.va + e.sz <= va || va + sz < e.va || e.va + e.sz < va + sz || e.pa + e.sz < pa + sz
  }

  /** `host_mhash_add`. */
  function Add(h: Hash, pa: nat, va: nat, sz: nat, flags: nat): (r: (Outcome, Hash))
    requires Good(h)
    ensures Good(r.1) && |r.1.entry| == |h.entry|
  {
    hide Bst, Insert, UsedAreListed, Lookup, FirstFree;
    match Lookup(h.tree, pa)
    case Some(x) =>
      var e := h.entry[x.val];
      if OutOfEntry(e, pa, va, sz) || e.flags != flags then (Code(VMM_EINVALID), h)
      else
        KeepSlot(h.entry, Items(h.tree), x.val, e.ref + 1);
        (Code(VMM_OK), h.(entry := h.entry[x.val := e.(ref := e.ref + 1)]))
    case None =>
      match FirstFree(h.entry, 0)
      case None => (Code(VMM_ENOMEM), h)
      case Some(i) =>
        AddNewKeepsGood(h, pa, va, sz, flags, i);
        match Insert(h.tree, Item(pa, pa + sz, i))
        case None => (Panic, h)
        case Some(t) => (Code(VMM_OK), Hash(h.entry[i := Entry(pa, va, sz, flags, 1)], t))
  }

  /** A residue is added back only when it is not empty; a failure panics. */
  function AddResidue(h: Hash, pa: nat, va: nat, sz: nat, flags: nat): (r: (Outcome, Hash))
    requires Good(h)
    ensures Good(r.1) && |r.1.entry| == |h.entry|
  {
    hide Good, Add;
    if sz == 0 then (Code(VMM_OK), h)
    else
      var (o, h') := Add(h, pa, va, sz, flags);
      if o == Code(VMM_OK) then (o, h') else (Panic, h')
  }

  function Remove(h: Hash, x: Item): (r: Hash)
    requires Good(h) && x in Items(h.tree)
    ensures Good(r) && r.entry == h.entry[x.val := FREE_ENTRY]
  {
    hide Bst, UsedAreListed, Erase;
    EraseKeepsBst(h.tree, x);
    DropSlot(h.entry, Items(h.tree), x.val);
    Hash(h.entry[x.val := FREE_ENTRY], Erase(h.tree, x))
  }

  /** Drop of the last reference: the entry goes, what it had to the left and
      to the right of the range comes back as entries of their own. */
  function Split(h: Hash, x: Item, pa: nat, va: nat, sz: nat): (r: (Outcome, Hash))
    requires Good(h) && x in Items(h.tree)
    requires !OutOfEntry(h.entry[x.val], pa, va, sz)
    ensures Good(r.1) && |r.1.entry| == |h.entry|
  {
    hide Bst, UsedAreListed, AddResidue, Remove;
    var e := h.entry[x.val];
    var (o1, h1) := AddResidue(Remove(h, x), e.pa, e.va, va - e.va, e.flags);
    if o1.Panic? then (Panic, h1)
    else AddResidue(h1, pa + sz, va + sz, (e.va + e.sz) - (va + sz), e.flags)
  }

  /** `host_mhash_del`. */
  function Del(h: Hash, pa: nat, va: nat, sz: nat): (r: (Outcome, Hash))
    requires Good(h)
    ensures Good(r.1) && |r.1.entry| == |h.entry|
  {
    hide Bst, UsedAreListed, Lookup, Split;
    match Lookup(h.tree, pa)
    case None => (Code(VMM_ENOTAVAIL), h)
    case Some(x) =>
      var e := h.entry[x.val];
      if OutOfEntry(e, pa, va, sz) then (Code(VMM_EINVALID), h)
      else if e.ref > 1 then
        KeepSlot(h.entry, Items(h.tree), x.val, e.ref - 1);
        (Code(VMM_EBUSY), h.(entry := h.entry[x.val := e.(ref := e.ref - 1)]))
      else Split(h, x, pa, va, sz)
  }

  /** `host_mhash_pa2va`: virtual address, size from there on, and flags. */
  function Pa2Va(h: Hash, a: nat): (r: Option<(nat, nat, nat)>)
    requires Good(h)
  {
    match Lookup(h.tree, a)
    case None => None
    case Some(x) =>
      var e := h.entry[x.val];
      Some((e.va + (a - e.pa), e.sz - (a - e.pa), e.flags))
  }

  // ----- what the operations keep -----

  lemma TakeSlot(entry: seq<Entry>, items: set<Item>, i: nat, e: Entry)
    requires ListedAreUsed(entry, items) && UsedAreListed(entry, items)
    requires i < |entry| && entry[i].ref == 0 && e.ref > 0
    ensures var entry' := entry[i := e];
            var items' := items + {ItemOf(entry', i)};
            ListedAreUsed(entry', items') && UsedAreListed(entry', items') && ItemOf(entry', i) !in items
  {
    var entry' := entry[i := e];
    forall x | x in items ensures x.val != i && x.val < |entry'| && entry'[x.val] == entry[x.val] {}
    forall j: nat | j < |entry| && j != i ensures entry'[j] == entry[j] && ItemOf(entry', j) == ItemOf(entry, j) {}
  }

  lemma DropSlot(entry: seq<Entry>, items: set<Item>, i: nat)
    requires ListedAreUsed(entry, items) && UsedAreListed(entry, items)
    requires i < |entry|
    ensures var entry' := entry[i := FREE_ENTRY];
            var items' := items - {ItemOf(entry, i)};
            ListedAreUsed(entry', items') && UsedAreListed(entry', items')
  {
    var entry' := entry[i := FREE_ENTRY];
    var items' := items - {ItemOf(entry, i)};
    forall x | x in items' ensures x.val != i && x.val < |entry'| && entry'[x.val] == entry[x.val] {
      assert x == ItemOf(entry, x.val);
    }
    forall j: nat | j < |entry| && j != i
      ensures entry'[j] == entry[j] && ItemOf(entry', j) == ItemOf(entry, j) != ItemOf(entry, i) {}
  }

  lemma KeepSlot(entry: seq<Entry>, items: set<Item>, i: nat, ref: nat)
    requires ListedAreUsed(entry, items) && UsedAreListed(entry, items)
    requires i < |entry| && entry[i].ref > 0 && ref > 0
    ensures var entry' := entry[i := entry[i].(ref := ref)];
            ListedAreUsed(entry', items) && UsedAreListed(entry', items)
  {
    var entry' := entry[i := entry[i].(ref := ref)];
    forall j: nat | j < |entry| ensures ItemOf(entry', j) == ItemOf(entry, j) && (entry'[j].ref > 0 <==> entry[j].ref > 0) {}
  }

  lemma AddNewKeepsGood(h: Hash, pa: nat, va: nat, sz: nat, flags: nat, i: nat)
    requires Good(h) && i < |h.entry| && h.entry[i].ref == 0
    ensures Item(pa, pa + sz, i) !in Items(h.tree)
    ensures Insert(h.tree, Item(pa, pa + sz, i)).Some? ==>
              Good(Hash(h.entry[i := Entry(pa, va, sz, flags, 1)], Insert(h.tree, Item(pa, pa + sz, i)).value))
  {
    hide Bst, Insert, ListedAreUsed, UsedAreListed;
    TakeSlot(h.entry, Items(h.tree), i, Entry(pa, va, sz, flags, 1));
    InsertKeepsBst(h.tree, Item(pa, pa + sz, i));
  }


  // ----- the physical-to-virtual function -----

  /** Virtual address and flags hashed for the physical address `a`. */
  ghost function Xlat(h: Hash, a: nat): (r: Option<(nat, nat)>)
    requires Good(h)
  {
    var l := Pa2Va(h, a);
    if l.None? then None else Some((l.value.0, l.value.2))
  }

  lemma GoodItem(h: Hash, x: Item)
    requires Good(h) && x in Items(h.tree)
    ensures x.val < |h.entry| && h.entry[x.val].ref > 0 && x == ItemOf(h.entry, x.val)
  {
  }

  lemma AddNewXlat(h: Hash, pa: nat, va: nat, sz: nat, flags: nat, i: nat, a: nat)
    requires Good(h) && i < |h.entry| && h.entry[i].ref == 0
    requires Insert(h.tree, Item(pa, pa + sz, i)).Some?
    requires Good(Hash(h.entry[i := Entry(pa, va, sz, flags, 1)], Insert(h.tree, Item(pa, pa + sz, i)).value))
    ensures Xlat(Hash(h.entry[i := Entry(pa, va, sz, flags, 1)], Insert(h.tree, Item(pa, pa + sz, i)).value), a)
         == if pa <= a < pa + sz then Some((va + (a - pa), flags)) else Xlat(h, a)
  {
    hide Bst, Insert, Lookup, UsedAreListed, ListedAreUsed;
    AddNewKeepsGood(h, pa, va, sz, flags, i);
    LookupAfterInsert(h.tree, Item(pa, pa + sz, i), a);
    if Lookup(h.tree, a).Some? { GoodItem(h, Lookup(h.tree, a).value); }
  }

  lemma SameRefsXlat(h: Hash, i: nat, ref: nat, a: nat)
    requires Good(h) && i < |h.entry|
    requires Good(h.(entry := h.entry[i := h.entry[i].(ref := ref)]))
    ensures Xlat(h.(entry := h.entry[i := h.entry[i].(ref := ref)]), a) == Xlat(h, a)
  {
    hide Bst, Lookup, UsedAreListed, ListedAreUsed;
    if Lookup(h.tree, a).Some? { GoodItem(h, Lookup(h.tree, a).value); }
  }

  /** `host_mhash_add` changes the function only when it takes a new slot, and
      then exactly on the range added. */
  lemma AddXlat(h: Hash, pa: nat, va: nat, sz: nat, flags: nat, a: nat)
    requires Good(h)
    ensures var r := Add(h, pa, va, sz, flags);
            Xlat(r.1, a) ==
              if r.0 == Code(VMM_OK) && Lookup(h.tree, pa).None? && pa <= a < pa + sz
              then Some((va + (a - pa), flags)) else Xlat(h, a)
  {
    hide Bst, Insert, Lookup, FirstFree, UsedAreListed, ListedAreUsed, Xlat;
    var l := Lookup(h.tree, pa);
    if l.Some? {
      GoodItem(h, l.value);
      var e := h.entry[l.value.val];
      KeepSlot(h.entry, Items(h.tree), l.value.val, e.ref + 1);
      SameRefsXlat(h, l.value.val, e.ref + 1, a);
    } else if FirstFree(h.entry, 0).Some? {
      var i := FirstFree(h.entry, 0).value;
      AddNewKeepsGood(h, pa, va, sz, flags, i);
      if Insert(h.tree, Item(pa, pa + sz, i)).Some? {
        AddNewXlat(h, pa, va, sz, flags, i, a);
      }
    }
  }

  /** A new range is taken in when a slot is free and nothing collides. */
  lemma AddSucceeds(h: Hash, pa: nat, va: nat, sz: nat, flags: nat)
    requires Good(h) && Lookup(h.tree, pa).None? && FirstFree(h.entry, 0).Some?
    requires forall y :: y in Items(h.tree) ==> !Collide(Item(pa, pa + sz, 0), y)
    ensures Add(h, pa, va, sz, flags).0 == Code(VMM_OK)
    ensures Items(Add(h, pa, va, sz, flags).1.tree)
         == Items(h.tree) + {Item(pa, pa + sz, FirstFree(h.entry, 0).value)}
    ensures Add(h, pa, va, sz, flags).1.entry
         == h.entry[FirstFree(h.entry, 0).value := Entry(pa, va, sz, flags, 1)]
  {
    hide Bst, Insert, Lookup, FirstFree, UsedAreListed, ListedAreUsed;
    var i := FirstFree(h.entry, 0).value;
    AddNewKeepsGood(h, pa, va, sz, flags, i);
    InsertKeepsBst(h.tree, Item(pa, pa + sz, i));
    assert forall y :: y in Items(h.tree) ==> !Collide(Item(pa, pa + sz, i), y) by {
      forall y | y in Items(h.tree) ensures !Collide(Item(pa, pa + sz, i), y) {
        assert !Collide(Item(pa, pa + sz, 0), y);
      }
    }
  }

  lemma RemoveXlat(h: Hash, x: Item, a: nat)
    requires Good(h) && x in Items(h.tree)
    ensures Xlat(Remove(h, x), a) == if Contains(x, a) then None else Xlat(h, a)
    ensures Lookup(Remove(h, x).tree, a) == if Contains(x, a) then None else Lookup(h.tree, a)
    ensures Items(Remove(h, x).tree) == Items(h.tree) - {x}
  {
    hide Bst, Erase, Lookup, UsedAreListed;
    LookupAfterErase(h.tree, x, a);
    EraseKeepsBst(h.tree, x);
    if !Contains(x, a) && Lookup(h.tree, a).Some? {
      assert Lookup(h.tree, a).value.val != x.val;
    }
  }

  /** Nothing else collides with a part of an entry that has been removed. */
  lemma PartIsClear(h: Hash, x: Item, lo: nat, hi: nat)
    requires Good(h) && x in Items(h.tree) && x.lo <= lo <= hi <= x.hi
    ensures forall y :: y in Items(Remove(h, x).tree) ==> !Collide(Item(lo, hi, 0), y)
  {
    hide Bst, UsedAreListed, ListedAreUsed;
    RemoveXlat(h, x, 0);
    forall y | y in Items(h.tree) - {x} ensures !Collide(Item(lo, hi, 0), y) {
      ItemsApart(h.tree, x, y);
    }
  }

  /** The left residue always comes back, in the first free slot. */
  lemma LeftResidue(h: Hash, x: Item, d: nat, a: nat)
    requires Good(h) && x in Items(h.tree) && d <= h.entry[x.val].sz
    ensures var e := h.entry[x.val];
            var h0 := Remove(h, x);
            var r := AddResidue(h0, e.pa, e.va, d, e.flags);
            && r.0 == Code(VMM_OK) && FirstFree(h0.entry, 0).Some?
            && Xlat(r.1, a) == (if e.pa <= a < e.pa + d then Some((e.va + (a - e.pa), e.flags)) else Xlat(h0, a))
            && (if d == 0 then r.1 == h0
                else
                  var i := FirstFree(h0.entry, 0).value;
                  && Items(r.1.tree) == Items(h0.tree) + {Item(e.pa, e.pa + d, i)}
                  && r.1.entry == h0.entry[i := Entry(e.pa, e.va, d, e.flags, 1)])
  {
    hide Bst, UsedAreListed, ListedAreUsed, Lookup, Remove, Insert, Xlat, Add, FirstFree;
    GoodItem(h, x);
    var e := h.entry[x.val];
    var h0 := Remove(h, x);
    assert h0.entry[x.val].ref == 0;
    if d > 0 {
      RemoveXlat(h, x, e.pa);
      PartIsClear(h, x, e.pa, e.pa + d);
      AddSucceeds(h0, e.pa, e.va, d, e.flags);
      AddXlat(h0, e.pa, e.va, d, e.flags, a);
    }
  }

  /** After the left residue a slot is left unless all others are in use. */
  lemma RightSlot(h: Hash, x: Item, e': Entry)
    requires Good(h) && x in Items(h.tree) && e'.ref > 0
    requires FirstFree(Remove(h, x).entry, 0).Some?
    ensures var entry0 := Remove(h, x).entry;
            var i := FirstFree(entry0, 0).value;
            FirstFree(entry0[i := e'], 0).None? <==> FirstFree(h.entry, 0).None?
  {
    hide Bst, UsedAreListed, ListedAreUsed, Lookup, Remove;
    GoodItem(h, x);
    var entry0 := Remove(h, x).entry;
    var i := FirstFree(entry0, 0).value;
    if FirstFree(h.entry, 0).Some? {
      var j := if i == x.val then FirstFree(h.entry, 0).value else x.val;
      var entry1: seq<Entry> := entry0[i := e'];
      assert entry1[j].ref == 0;
    } else {
      assert forall j: nat :: j < |h.entry| && j != x.val ==> entry0[j] == h.entry[j] && h.entry[j].ref > 0;
      assert i == x.val;
    }
  }

  /** The second half of a split: the right residue. */
  lemma SplitRight(h: Hash, x: Item, pa: nat, va: nat, sz: nat, a: nat)
    requires Good(h) && x in Items(h.tree) && Contains(x, pa)
    requires var e := h.entry[x.val]; !OutOfEntry(e, pa, va, sz) && va - e.va == pa - e.pa
    ensures var e := h.entry[x.val];
            var h1 := AddResidue(Remove(h, x), e.pa, e.va, va - e.va, e.flags).1;
            var r := AddResidue(h1, pa + sz, va + sz, (e.va + e.sz) - (va + sz), e.flags);
            && (r.0.Panic? <==> e.va < va && va + sz < e.va + e.sz && FirstFree(h.entry, 0).None?)
            && (!r.0.Panic? ==>
                  && r.0 == Code(VMM_OK)
                  && Xlat(r.1, a) == if pa + sz <= a < x.hi then Some((e.va + (a - e.pa), e.flags)) else Xlat(h1, a))
  {
    hide Bst, UsedAreListed, ListedAreUsed, Lookup, AddResidue, Add, Xlat, FirstFree, Remove;
    GoodItem(h, x);
    var e := h.entry[x.val];
    var d := va - e.va;
    var h0 := Remove(h, x);
    var h1 := AddResidue(h0, e.pa, e.va, d, e.flags).1;
    LeftResidue(h, x, d, pa + sz);
    RightSlot(h, x, Entry(e.pa, e.va, d, e.flags, 1));
    if va + sz < e.va + e.sz {
      RemoveXlat(h, x, pa + sz);
      PartIsClear(h, x, pa + sz, x.hi);
    }
    RightResidue(h1, pa + sz, va + sz, (e.va + e.sz) - (va + sz), e.flags, a);
  }

  /** Splitting an entry where virtual and physical offsets agree: it panics
      exactly when both residues are left and no further slot is free, and
      otherwise the function loses exactly `[pa, pa + sz)`. */
  lemma SplitXlat(h: Hash, x: Item, pa: nat, va: nat, sz: nat, a: nat)
    requires Good(h) && x in Items(h.tree) && Contains(x, pa)
    requires var e := h.entry[x.val]; !OutOfEntry(e, pa, va, sz) && va - e.va == pa - e.pa
    ensures var e := h.entry[x.val];
            var r := Split(h, x, pa, va, sz);
            && (r.0.Panic? <==> e.va < va && va + sz < e.va + e.sz && FirstFree(h.entry, 0).None?)
            && (!r.0.Panic? ==>
                  && r.0 == Code(VMM_OK)
                  && Xlat(r.1, a) == if pa <= a < pa + sz then None else Xlat(h, a))
  {
    hide Bst, UsedAreListed, ListedAreUsed, Lookup, AddResidue, Add, Xlat, FirstFree, Remove;
    GoodItem(h, x);
    var e := h.entry[x.val];
    LeftResidue(h, x, va - e.va, a);
    SplitRight(h, x, pa, va, sz, a);
    RemoveXlat(h, x, a);
    if Contains(x, a) { EntryXlat(h, x, a); }
  }

  lemma EntryXlat(h: Hash, x: Item, a: nat)
    requires Good(h) && x in Items(h.tree) && Contains(x, a)
    ensures Xlat(h, a) == Some((h.entry[x.val].va + (a - h.entry[x.val].pa), h.entry[x.val].flags))
  {
    LookupIsScan(h.tree, a, x);
  }

  lemma RightResidue(h: Hash, pa: nat, va: nat, sz: nat, flags: nat, a: nat)
    requires Good(h)
    requires sz > 0 ==> Xlat(h, pa).None? && forall y :: y in Items(h.tree) ==> !Collide(Item(pa, pa + sz, 0), y)
    ensures var r := AddResidue(h, pa, va, sz, flags);
            && (r.0.Panic? <==> sz > 0 && FirstFree(h.entry, 0).None?)
            && (!r.0.Panic? ==>
                  && r.0 == Code(VMM_OK)
                  && Xlat(r.1, a) == if pa <= a < pa + sz then Some((va + (a - pa), flags)) else Xlat(h, a))
  {
    hide Bst, UsedAreListed, Lookup, FirstFree, Insert;
    if sz > 0 {
      assert Lookup(h.tree, pa).None?;
      if FirstFree(h.entry, 0).Some? {
        AddSucceeds(h, pa, va, sz, flags);
        AddXlat(h, pa, va, sz, flags, a);
      }
    }
  }

  /** The entry of `pa` has `va` at the offset it has `pa` at. */
  ghost predicate OffsetsAgree(h: Hash, pa: nat, va: nat)
    requires Good(h)
  {
    var l := Lookup(h.tree, pa);
    l.Some? ==> h.entry[l.value.val].pa + va == h.entry[l.value.val].va + pa
  }

  /** `host_mhash_del`: when the last reference goes the function loses exactly
      the range, and every error or busy return leaves it as it was. */
  lemma DelXlat(h: Hash, pa: nat, va: nat, sz: nat, a: nat)
    requires Good(h) && OffsetsAgree(h, pa, va)
    ensures var r := Del(h, pa, va, sz);
            r.0.Code? ==>
              Xlat(r.1, a) == if r.0.rc == VMM_OK && pa <= a < pa + sz then None else Xlat(h, a)
  {
    hide Bst, UsedAreListed, ListedAreUsed, Lookup, Split, Xlat;
    var l := Lookup(h.tree, pa);
    if l.Some? {
      GoodItem(h, l.value);
      var e := h.entry[l.value.val];
      if !OutOfEntry(e, pa, va, sz) {
        if e.ref > 1 {
          KeepSlot(h.entry, Items(h.tree), l.value.val, e.ref - 1);
          SameRefsXlat(h, l.value.val, e.ref - 1, a);
        } else {
          SplitXlat(h, l.value, pa, va, sz, a);
        }
      }
    }
  }

  lemma AddResidueGrows(h: Hash, pa: nat, va: nat, sz: nat, flags: nat, a: nat)
    requires Good(h)
    ensures var h' := AddResidue(h, pa, va, sz, flags).1;
            && (Xlat(h, a).Some? ==> Xlat(h', a).Some?)
            && (a < pa ==> Xlat(h', a) == Xlat(h, a))
  {
    hide Bst, UsedAreListed, ListedAreUsed, Lookup, Add, Xlat;
    if sz > 0 { AddXlat(h, pa, va, sz, flags, a); }
  }

  ghost predicate LosesExactly(h: Hash, h': Hash, pa: nat, sz: nat)
    requires Good(h) && Good(h')
  {
    forall a: nat :: Xlat(h', a) == if pa <= a < pa + sz then None else Xlat(h, a)
  }

  /** Nothing in `host_mhash_del` compares the two offsets: a successful
      removal of a non-empty range takes out exactly that range if and only if
      the virtual and the physical offset into the entry agree. */
  lemma DelLosesExactlyIff(h: Hash, pa: nat, va: nat, sz: nat)
    requires Good(h) && sz > 0 && Del(h, pa, va, sz).0 == Code(VMM_OK)
    ensures LosesExactly(h, Del(h, pa, va, sz).1, pa, sz) <==> OffsetsAgree(h, pa, va)
  {
    hide Bst, UsedAreListed, ListedAreUsed, Lookup, AddResidue, Add, Remove, Xlat;
    var h' := Del(h, pa, va, sz).1;
    if OffsetsAgree(h, pa, va) {
      forall a: nat ensures Xlat(h', a) == if pa <= a < pa + sz then None else Xlat(h, a) {
        DelXlat(h, pa, va, sz, a);
      }
    } else {
      var x := Lookup(h.tree, pa).value;
      GoodItem(h, x);
      var e := h.entry[x.val];
      var d := va - e.va;
      var a := if pa - e.pa < d then pa else e.pa + d;
      var h1 := AddResidue(Remove(h, x), e.pa, e.va, d, e.flags).1;
      LeftResidue(h, x, d, a);
      RemoveXlat(h, x, a);
      EntryXlat(h, x, a);
      AddResidueGrows(h1, pa + sz, va + sz, (e.va + e.sz) - (va + sz), e.flags, a);
    }
  }

  const FOUR_PAGES := Hash([Entry(0, 0, 4, 0, 1), FREE_ENTRY], Node(Leaf, Item(0, 4, 0), Leaf))

  /** Removing physical page 0 at virtual page 1 succeeds and does not take out
      page 0. */
  lemma MismatchedDelKeepsPage()
    ensures Good(FOUR_PAGES) && Del(FOUR_PAGES, 0, 1, 1).0 == Code(VMM_OK)
    ensures !LosesExactly(FOUR_PAGES, Del(FOUR_PAGES, 0, 1, 1).1, 0, 1)
  {
    hide Good, AddResidue, Remove, LosesExactly, Bst, Erase;
    FourPagesRemoved();
    LeftPageBack();
    RightPagesBack();
    assert Lookup(FOUR_PAGES.tree, 0) == Some(Item(0, 4, 0)) && FOUR_PAGES.entry[0] == Entry(0, 0, 4, 0, 1);
    assert Split(FOUR_PAGES, Item(0, 4, 0), 0, 1, 1).0 == Code(VMM_OK);
    DelLosesExactlyIff(FOUR_PAGES, 0, 1, 1);
  }

  const ONE_PAGE := Hash([Entry(0, 0, 1, 0, 1), FREE_ENTRY], Node(Leaf, Item(0, 1, 0), Leaf))

  lemma FourPagesRemoved()
    ensures Good(FOUR_PAGES) && Item(0, 4, 0) in Items(FOUR_PAGES.tree)
    ensures Remove(FOUR_PAGES, Item(0, 4, 0)) == Hash([FREE_ENTRY, FREE_ENTRY], Leaf)
  {
    assert FOUR_PAGES.entry[0 := FREE_ENTRY] == [FREE_ENTRY, FREE_ENTRY];
  }

  lemma LeftPageBack()
    ensures var h := Hash([FREE_ENTRY, FREE_ENTRY], Leaf);
            Good(h) && AddResidue(h, 0, 0, 1, 0) == (Code(VMM_OK), ONE_PAGE)
  {
    var h := Hash([FREE_ENTRY, FREE_ENTRY], Leaf);
    assert Lookup(h.tree, 0) == None && FirstFree(h.entry, 0) == Some(0);
    assert h.entry[0 := Entry(0, 0, 1, 0, 1)] == ONE_PAGE.entry;
  }

  lemma RightPagesBack()
    ensures Good(ONE_PAGE) && AddResidue(ONE_PAGE, 1, 2, 2, 0).0 == Code(VMM_OK)
  {
    assert Lookup(ONE_PAGE.tree, 1) == None && FirstFree(ONE_PAGE.entry, 0) == Some(1);
    assert Insert(Leaf, Item(1, 3, 1)).Some?;
    assert Insert(ONE_PAGE.tree, Item(1, 3, 1)).Some?;
  }

  // ----- slots are conserved -----

  ghost function UsedItems(entry: seq<Entry>, n: nat): (s: set<Item>)
    requires n <= |entry|
    ensures forall x :: x in s <==> x.val < n && entry[x.val].ref > 0 && x == ItemOf(entry, x.val)
  {
    if n == 0 then {}
    else UsedItems(entry, n - 1) + (if entry[n - 1].ref > 0 then {ItemOf(entry, n - 1)} else {})
  }

  lemma UsedNone(entry: seq<Entry>)
    ensures |UsedItems(entry, 0)| == 0
  {
  }

  lemma UsedStep(entry: seq<Entry>, n: nat)
    requires 0 < n <= |entry|
    ensures |UsedItems(entry, n)| == |UsedItems(entry, n - 1)| + (if entry[n - 1].ref > 0 then 1 else 0)
  {
    var s, x := UsedItems(entry, n - 1), ItemOf(entry, n - 1);
    assert x !in s;
    assert |s + {x}| == |s| + 1;
  }

  lemma {:induction false} CountUsed(entry: seq<Entry>, n: nat)
    requires n <= |entry|
    ensures |UsedItems(entry, n)| + FreeBelow(entry, n) == n
  {
    hide UsedItems;
    if n == 0 {
      UsedNone(entry);
    } else {
      UsedStep(entry, n);
      CountUsed(entry, n - 1);
    }
  }

  /** A slot is in the tree exactly when it is in use: the free count and the
      size of the tree always add up to the number of slots. */
  lemma SlotsAreConserved(h: Hash)
    requires Good(h)
    ensures |Items(h.tree)| + FreeBelow(h.entry, |h.entry|) == |h.entry|
  {
    hide Bst, FreeBelow;
    CountUsed(h.entry, |h.entry|);
    assert Items(h.tree) == UsedItems(h.entry, |h.entry|);
  }

  // ----- answers and reference counts -----

  /** Slot `i` is in use and holds the physical address `a`. */
  predicate Holds(h: Hash, i: nat, a: nat) {
    i < |h.entry| && h.entry[i].ref > 0 && h.entry[i].pa <= a < h.entry[i].pa + h.entry[i].sz
  }

  /** The range asked for lies inside the entry, virtually and physically. */
  predicate FitsIn(e: Entry, pa: nat, va: nat, sz: nat) {
    e.va <= va < e.va + e.sz && va + sz <= e.va + e.sz && pa + sz <= e.pa + e.sz
  }

  /** The tree finds the slot that holds an address, and finds nothing where
      there is none. */
  lemma HoldsIsLookup(h: Hash, i: nat, a: nat)
    requires Good(h)
    ensures Holds(h, i, a) ==> Lookup(h.tree, a) == Some(ItemOf(h.entry, i))
    ensures Lookup(h.tree, a).Some? ==> Holds(h, Lookup(h.tree, a).value.val, a)
  {
    hide Bst;
    if Holds(h, i, a) { LookupIsScan(h.tree, a, ItemOf(h.entry, i)); }
  }

  /** Adding an address that slot `i` holds: a range inside the entry with its
      flags raises the slot's count by one and changes nothing else; any other is
      refused. */
  lemma AddAgain(h: Hash, i: nat, pa: nat, va: nat, sz: nat, flags: nat)
    requires Good(h) && Holds(h, i, pa)
    ensures var e := h.entry[i];
            Add(h, pa, va, sz, flags) ==
              if FitsIn(e, pa, va, sz) && flags == e.flags
              then (Code(VMM_OK), Hash(h.entry[i := e.(ref := e.ref + 1)], h.tree))
              else (Code(VMM_EINVALID), h)
  {
    hide Bst, Lookup, UsedAreListed, ListedAreUsed;
    HoldsIsLookup(h, i, pa);
  }

  /** Slot `j` is in use and overlaps the range. */
  predicate Meets(h: Hash, j: nat, pa: nat, sz: nat) {
    j < |h.entry| && h.entry[j].ref > 0 && h.entry[j].pa < pa + sz && pa < h.entry[j].pa + h.entry[j].sz
  }

  ghost predicate Overlaps(h: Hash, pa: nat, sz: nat) {
    exists j: nat :: Meets(h, j, pa, sz)
  }

  /** Adding an address that no slot holds: refused without a free slot, a panic
      on an overlap, and otherwise one free slot becomes the range's, with one
      reference, and no other slot changes. */
  lemma AddNew(h: Hash, pa: nat, va: nat, sz: nat, flags: nat) returns (i: nat)
    requires Good(h) && forall j: nat :: !Holds(h, j, pa)
    ensures var r := Add(h, pa, va, sz, flags);
            if forall j :: 0 <= j < |h.entry| ==> h.entry[j].ref > 0 then r == (Code(VMM_ENOMEM), h)
            else if Overlaps(h, pa, sz) then r == (Panic, h)
            else
              && r.0 == Code(VMM_OK) && i < |h.entry| && h.entry[i].ref == 0
              && r.1.entry == h.entry[i := Entry(pa, va, sz, flags, 1)]
  {
    hide Bst, Lookup, UsedAreListed, ListedAreUsed, FirstFree, Insert;
    HoldsIsLookup(h, 0, pa);
    i := 0;
    if FirstFree(h.entry, 0).Some? {
      i := FirstFree(h.entry, 0).value;
      AddNewKeepsGood(h, pa, va, sz, flags, i);
      InsertKeepsBst(h.tree, Item(pa, pa + sz, i));
      CollisionIsOverlap(h, pa, sz, i);
    }
  }

  lemma CollisionIsOverlap(h: Hash, pa: nat, sz: nat, i: nat)
    requires Good(h)
    ensures (exists y :: y in Items(h.tree) && Collide(Item(pa, pa + sz, i), y)) <==> Overlaps(h, pa, sz)
  {
    hide Bst, Items;
    var x := Item(pa, pa + sz, i);
    if Overlaps(h, pa, sz) {
      var j: nat :| Meets(h, j, pa, sz);
      var y := ItemOf(h.entry, j);
      assert y in Items(h.tree) && Collide(x, y);
    }
    if exists y :: y in Items(h.tree) && Collide(x, y) {
      var y :| y in Items(h.tree) && Collide(x, y);
      GoodItem(h, y);
      assert Meets(h, y.val, pa, sz);
    }
  }

  /** Removing: an address no slot holds is not available; a range outside its
      entry is refused; with more than one reference the count drops by one and
      nothing else changes; the last reference splits the entry. */
  lemma DelAnswers(h: Hash, i: nat, pa: nat, va: nat, sz: nat)
    requires Good(h)
    ensures (forall j: nat :: !Holds(h, j, pa)) ==> Del(h, pa, va, sz) == (Code(VMM_ENOTAVAIL), h)
    ensures Holds(h, i, pa) ==>
              var e := h.entry[i];
              && ItemOf(h.entry, i) in Items(h.tree)
              && (!FitsIn(e, pa, va, sz) ==> Del(h, pa, va, sz) == (Code(VMM_EINVALID), h))
              && (FitsIn(e, pa, va, sz) ==>
                    if e.ref > 1 then
                      Del(h, pa, va, sz) == (Code(VMM_EBUSY), Hash(h.entry[i := e.(ref := e.ref - 1)], h.tree))
                    else Del(h, pa, va, sz) == Split(h, ItemOf(h.entry, i), pa, va, sz))
  {
    hide Bst, Lookup, UsedAreListed, ListedAreUsed, Split;
    HoldsIsLookup(h, i, pa);
  }

  /** References on a physical address: those of the slot that holds it. */
  ghost function Refs(h: Hash, a: nat): nat
    requires Good(h)
  {
    var l := Lookup(h.tree, a);
    if l.Some? then h.entry[l.value.val].ref else 0
  }

  lemma RefsOfSlot(h: Hash, i: nat, a: nat)
    requires Good(h)
    ensures Holds(h, i, a) ==> Refs(h, a) == h.entry[i].ref
    ensures Refs(h, a) > 0 <==> Xlat(h, a).Some?
    ensures Refs(h, a) == 0 <==> forall j: nat :: !Holds(h, j, a)
  {
    hide Bst, Lookup, UsedAreListed;
    HoldsIsLookup(h, i, a);
    forall j: nat ensures Holds(h, j, a) ==> Lookup(h.tree, a).Some? { HoldsIsLookup(h, j, a); }
  }

  /** What taking a new range in does to the references. */
  lemma AddNewRefs(h: Hash, pa: nat, va: nat, sz: nat, flags: nat, a: nat)
    requires Good(h) && Refs(h, pa) == 0 && Add(h, pa, va, sz, flags).0 == Code(VMM_OK)
    ensures Refs(Add(h, pa, va, sz, flags).1, a) == if pa <= a < pa + sz then 1 else Refs(h, a)
  {
    hide Bst, Insert, Lookup, FirstFree, UsedAreListed, ListedAreUsed;
    if Lookup(h.tree, pa).Some? { GoodItem(h, Lookup(h.tree, pa).value); }
    var i := FirstFree(h.entry, 0).value;
    AddNewKeepsGood(h, pa, va, sz, flags, i);
    LookupAfterInsert(h.tree, Item(pa, pa + sz, i), a);
    if Lookup(h.tree, a).Some? { GoodItem(h, Lookup(h.tree, a).value); }
  }

  /** Changing the count of slot `i`. */
  lemma RecountRefs(h: Hash, i: nat, ref: nat, a: nat)
    requires Good(h) && i < |h.entry| && h.entry[i].ref > 0 && ref > 0
    ensures var h' := Hash(h.entry[i := h.entry[i].(ref := ref)], h.tree);
            && Good(h') && Xlat(h', a) == Xlat(h, a)
            && Refs(h', a) == if Holds(h, i, a) then ref else Refs(h, a)
  {
    hide Bst, Lookup, UsedAreListed, ListedAreUsed;
    KeepSlot(h.entry, Items(h.tree), i, ref);
    SameRefsXlat(h, i, ref, a);
    HoldsIsLookup(h, i, a);
    if Lookup(h.tree, a).Some? { GoodItem(h, Lookup(h.tree, a).value); }
  }

  lemma RemoveRefs(h: Hash, x: Item, a: nat)
    requires Good(h) && x in Items(h.tree)
    ensures Refs(Remove(h, x), a) == if Contains(x, a) then 0 else Refs(h, a)
  {
    hide Bst, Erase, Lookup, UsedAreListed, ListedAreUsed, Remove;
    RemoveXlat(h, x, a);
    if !Contains(x, a) && Lookup(h.tree, a).Some? {
      GoodItem(h, Lookup(h.tree, a).value);
      GoodItem(h, x);
    }
  }

  lemma ResidueRefs(h: Hash, pa: nat, va: nat, sz: nat, flags: nat, a: nat)
    requires Good(h) && (sz > 0 ==> Refs(h, pa) == 0) && !AddResidue(h, pa, va, sz, flags).0.Panic?
    ensures Refs(AddResidue(h, pa, va, sz, flags).1, a) == if pa <= a < pa + sz then 1 else Refs(h, a)
  {
    hide Good, Add, Refs;
    if sz > 0 { AddNewRefs(h, pa, va, sz, flags, a); }
  }

  /** The split of an entry with one reference: none is left on the range, and
      all others are as they were. */
  lemma SplitRefs(h: Hash, x: Item, pa: nat, va: nat, sz: nat, a: nat)
    requires Good(h) && x in Items(h.tree) && Contains(x, pa) && h.entry[x.val].ref == 1
    requires var e := h.entry[x.val]; !OutOfEntry(e, pa, va, sz) && va - e.va == pa - e.pa
    requires !Split(h, x, pa, va, sz).0.Panic?
    ensures Refs(Split(h, x, pa, va, sz).1, a) == if pa <= a < pa + sz then 0 else Refs(h, a)
  {
    hide Bst, UsedAreListed, ListedAreUsed, Lookup, AddResidue, Add, FirstFree, Remove, Refs;
    GoodItem(h, x);
    var e := h.entry[x.val];
    var h0 := Remove(h, x);
    var h1 := AddResidue(h0, e.pa, e.va, va - e.va, e.flags).1;
    RemoveRefs(h, x, a);
    RemoveRefs(h, x, e.pa);
    RemoveRefs(h, x, pa + sz);
    ResidueRefs(h0, e.pa, e.va, va - e.va, e.flags, a);
    ResidueRefs(h0, e.pa, e.va, va - e.va, e.flags, pa + sz);
    ResidueRefs(h1, pa + sz, va + sz, (e.va + e.sz) - (va + sz), e.flags, a);
    if Contains(x, a) { RefsOfSlot(h, x.val, a); }
  }

  // ----- the control structure -----

  class HashCtrl {
    var entry: seq<Entry>
    var tree: Tree

    ghost function Value(): Hash
      reads this
    {
      Hash(entry, tree)
    }

    /** `host_mhash_init` with room for `count` slots. */
    constructor (count: nat)
      ensures |entry| == count && Good(Value()) && Items(tree) == {}
    {
      entry := seq(count, _ => FREE_ENTRY);
      tree := Leaf;
    }

    /** `__host_mhash_alloc`: marks the first free slot as used once. */
    method AllocSlot() returns (r: Option<nat>)
      modifies this
      ensures r == FirstFree(old(entry), 0) && tree == old(tree)
      ensures entry == if r.Some? then old(entry)[r.value := old(entry)[r.value].(ref := 1)] else old(entry)
    {
      var i := 0;
      while i < |entry|
        invariant 0 <= i <= |entry| && entry == old(entry) && tree == old(tree)
        invariant FirstFree(entry, 0) == FirstFree(entry, i)
      {
        if entry[i].ref == 0 {
          entry := entry[i := entry[i].(ref := 1)];
          return Some(i);
        }
        i := i + 1;
      }
      r := None;
    }

    /** `__host_mhash_free_count`. */
    method CountFree() returns (n: nat)
      ensures n == FreeBelow(entry, |entry|)
    {
      var i := 0;
      n := 0;
      while i < |entry|
        invariant 0 <= i <= |entry| && n == FreeBelow(entry, i)
      {
        if entry[i].ref == 0 {
          n := n + 1;
        }
        i := i + 1;
      }
    }

    /** `host_mhash_pa2va`. */
    method FindVa(pa: nat) returns (r: Option<(nat, nat, nat)>)
      requires Good(Value())
      ensures r == Pa2Va(Value(), pa)
    {
      hide Bst, Lookup;
      var l := Find(tree, pa);
      if l.None? {
        return None;
      }
      var e := entry[l.value.val];
      r := Some((e.va + (pa - e.pa), e.sz - (pa - e.pa), e.flags));
    }

    /** `host_mhash_add`. */
    method AddEntry(pa: nat, va: nat, sz: nat, flags: nat) returns (o: Outcome)
      requires Good(Value())
      modifies this
      ensures o == Add(old(Value()), pa, va, sz, flags).0
      ensures o.Code? ==> Value() == Add(old(Value()), pa, va, sz, flags).1
    {
      hide Bst, Insert, Lookup, FirstFree;
      var l := Find(tree, pa);
      if l.Some? {
        var e := entry[l.value.val];
        if va < e.va || e.va + e.sz <= va || va + sz < e.va || e.va + e.sz < va + sz
           || e.pa + e.sz < pa + sz || e.flags != flags {
          return Code(VMM_EINVALID);
        }
        entry := entry[l.value.val := e.(ref := e.ref + 1)];
        return Code(VMM_OK);
      }
      var slot := AllocSlot();
      if slot.None? {
        return Code(VMM_ENOMEM);
      }
      entry := entry[slot.value := entry[slot.value].(pa := pa, va := va, sz := sz, flags := flags)];
      var t := Insert(tree, Item(pa, pa + sz, slot.value));
      if t.None? {
        return Panic;
      }
      tree := t.value;
      o := Code(VMM_OK);
    }

    /** `host_mhash_del`. */
    method DelEntry(pa: nat, va: nat, sz: nat) returns (o: Outcome)
      requires Good(Value())
      modifies this
      ensures o == Del(old(Value()), pa, va, sz).0
      ensures o.Code? ==> Value() == Del(old(Value()), pa, va, sz).1
    {
      hide Bst, Insert, Lookup, AddResidue, Remove, UsedAreListed;
      var l := Find(tree, pa);
      if l.None? {
        return Code(VMM_ENOTAVAIL);
      }
      var i := l.value.val;
      var e := entry[i];
      if OutOfEntry(e, pa, va, sz) {
        return Code(VMM_EINVALID);
      }
      if e.ref > 1 {
        entry := entry[i := e.(ref := e.ref - 1)];
        return Code(VMM_EBUSY);
      }
      RemoveEntry(l.value);
      o := AddBack(e.pa, e.va, va - e.va, e.flags);
      if o.Panic? {
        return Panic;
      }
      o := AddBack(pa + sz, va + sz, (e.va + e.sz) - (va + sz), e.flags);
    }

    /** Takes an entry out of the tree and clears its slot. */
    method RemoveEntry(x: Item)
      requires Good(Value()) && x in Items(tree)
      modifies this
      ensures Value() == Remove(old(Value()), x)
    {
      hide Bst, Erase, UsedAreListed;
      tree := Erase(tree, x);
      entry := entry[x.val := FREE_ENTRY];
    }

    /** Adds a residue back unless it is empty; panics when that fails. */
    method AddBack(pa: nat, va: nat, sz: nat, flags: nat) returns (o: Outcome)
      requires Good(Value())
      modifies this
      ensures o == AddResidue(old(Value()), pa, va, sz, flags).0
      ensures o.Code? ==> Value() == AddResidue(old(Value()), pa, va, sz, flags).1
    {
      hide Good, Add;
      o := Code(VMM_OK);
      if sz > 0 {
        o := AddEntry(pa, va, sz, flags);
        if o != Code(VMM_OK) {
          return Panic;
        }
      }
    }
  }
}
