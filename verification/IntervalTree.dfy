/** Search trees of address intervals: the red-black trees that index hashed
    host mappings, page-pool entries and guest regions. Rebalancing is not
    modelled; only the search order matters. */
module IntervalTree {
  import opened Common

  /** The interval `[lo, hi)` with the number of the entry stored for it. */
  datatype Item = Item(lo: nat, hi: nat, val: nat)

  datatype Tree = Leaf | Node(left: Tree, item: Item, right: Tree)

  predicate Contains(x: Item, a: nat) {
    x.lo <= a < x.hi
  }

  /** Neither interval ends before the other starts. */
  predicate Collide(x: Item, y: Item) {
    !(x.hi <= y.lo) && !(y.hi <= x.lo)
  }

  function Items(t: Tree): (s: set<Item>) {
    if t.Leaf? then {} else Items(t.left) + {t.item} + Items(t.right)
  }

  /** A search tree of pairwise non-colliding intervals, each stored once. */
  ghost predicate Bst(t: Tree) {
    t.Node? ==>
      && Bst(t.left) && Bst(t.right)
      && t.item.lo <= t.item.hi
      && t.item !in Items(t.left) && t.item !in Items(t.right)
      && (forall y :: y in Items(t.left) ==> y.hi <= t.item.lo)
      && (forall y :: y in Items(t.right) ==> t.item.hi <= y.lo && y !in Items(t.left))
  }

  /** Any two intervals of a search tree lie apart. */
  lemma {:induction false} ItemsApart(t: Tree, x: Item, y: Item)
    requires Bst(t) && x in Items(t) && y in Items(t) && x != y
    ensures !Collide(x, y) && x.lo <= x.hi
    decreases t
  {
    ItemOrdered(t, x);
    ItemOrdered(t, y);
    if x in Items(t.left) && y in Items(t.left) {
      ItemsApart(t.left, x, y);
    } else if x in Items(t.right) && y in Items(t.right) {
      ItemsApart(t.right, x, y);
    }
  }

  lemma {:induction false} ItemOrdered(t: Tree, x: Item)
    requires Bst(t) && x in Items(t)
    ensures x.lo <= x.hi
    decreases t
  {
    if x in Items(t.left) { ItemOrdered(t.left, x); }
    else if x in Items(t.right) { ItemOrdered(t.right, x); }
  }

  /** The interval the lookup walk for `a` ends at. */
  function Lookup(t: Tree, a: nat): (r: Option<Item>)
    ensures r.Some? ==> r.value in Items(t) && Contains(r.value, a)
  {
    if t.Leaf? then None
    else if Contains(t.item, a) then Some(t.item)
    else if a < t.item.lo then Lookup(t.left, a)
    else Lookup(t.right, a)
  }

  /** In a search tree the walk finds an interval exactly when one contains
      `a`, and then it is the only one. */
  lemma {:induction false} LookupIsScan(t: Tree, a: nat, y: Item)
    requires Bst(t) && y in Items(t) && Contains(y, a)
    ensures Lookup(t, a) == Some(y)
    decreases t
  {
    if y != t.item {
      if y in Items(t.left) { LookupIsScan(t.left, a, y); } else { LookupIsScan(t.right, a, y); }
    }
  }

  /** The lookup walk as a loop. */
  method Find(t: Tree, a: nat) returns (r: Option<Item>)
    ensures r == Lookup(t, a)
  {
    var n := t;
    while n.Node?
      invariant Lookup(t, a) == Lookup(n, a)
      decreases n
    {
      var e := n.item;
      if e.lo <= a < e.hi {
        return Some(e);
      } else if a < e.lo {
        n := n.left;
      } else {
        n := n.right;
      }
    }
    r := None;
  }

  /** The overlap walk: finds an interval that collides with `x`, if any does. */
  method FindCollision(t: Tree, x: Item) returns (r: Option<Item>)
    requires Bst(t) && x.lo <= x.hi
    ensures r.Some? ==> r.value in Items(t) && Collide(x, r.value)
    ensures r.None? ==> forall y :: y in Items(t) ==> !Collide(x, y)
  {
    var n := t;
    while n.Node?
      invariant Bst(n) && Items(n) <= Items(t)
      invariant forall y :: y in Items(t) && Collide(x, y) ==> y in Items(n)
      decreases n
    {
      var e := n.item;
      if x.hi <= e.lo {
        n := n.left;
      } else if e.hi <= x.lo {
        n := n.right;
      } else {
        return Some(e);
      }
    }
    r := None;
  }

  /** The insertion walk; `None` when it meets an interval that collides. */
  function Insert(t: Tree, x: Item): (r: Option<Tree>)
  {
    match t
    case Leaf => Some(Node(Leaf, x, Leaf))
    case Node(l, e, r) =>
      if x.hi <= e.lo then
        var l' := Insert(l, x);
        if l'.None? then None else Some(Node(l'.value, e, r))
      else if e.hi <= x.lo then
        var r' := Insert(r, x);
        if r'.None? then None else Some(Node(l, e, r'.value))
      else None
  }

  lemma {:induction false} InsertKeepsBst(t: Tree, x: Item)
    requires Bst(t) && x.lo <= x.hi && x !in Items(t)
    ensures Insert(t, x).None? <==> exists y :: y in Items(t) && Collide(x, y)
    ensures Insert(t, x).Some? ==> Bst(Insert(t, x).value) && Items(Insert(t, x).value) == Items(t) + {x}
    decreases t
  {
    if t.Node? {
      ItemOrdered(t, t.item);
      if x.hi <= t.item.lo {
        InsertKeepsBst(t.left, x);
      } else if t.item.hi <= x.lo {
        InsertKeepsBst(t.right, x);
      } else {
        assert t.item in Items(t) && Collide(x, t.item);
      }
    }
  }

  /** All of `l` before all of `r`. */
  function Join(l: Tree, r: Tree): (t: Tree)
    ensures Items(t) == Items(l) + Items(r)
    decreases l
  {
    if l.Leaf? then r else Node(l.left, l.item, Join(l.right, r))
  }

  lemma {:induction false} JoinKeepsBst(l: Tree, r: Tree)
    requires Bst(l) && Bst(r) && Items(l) !! Items(r)
    requires forall x, y :: x in Items(l) && y in Items(r) ==> x.hi <= y.lo
    ensures Bst(Join(l, r))
    decreases l
  {
    if l.Node? { JoinKeepsBst(l.right, r); }
  }

  /** `rb_erase` of the node that stores `x`. */
  function Erase(t: Tree, x: Item): (r: Tree)
    ensures Items(r) <= Items(t)
  {
    if t.Leaf? then Leaf
    else if t.item == x then Join(t.left, t.right)
    else if x.hi <= t.item.lo && x in Items(t.left) then Node(Erase(t.left, x), t.item, t.right)
    else Node(t.left, t.item, Erase(t.right, x))
  }

  lemma {:induction false} EraseKeepsBst(t: Tree, x: Item)
    requires Bst(t)
    ensures Bst(Erase(t, x)) && Items(Erase(t, x)) == Items(t) - {x}
    decreases t
  {
    if t.Node? {
      if t.item == x {
        forall y, z | y in Items(t.left) && z in Items(t.right) ensures y.hi <= z.lo {
          assert t.item.lo <= t.item.hi;
        }
        JoinKeepsBst(t.left, t.right);
      } else if x in Items(t.left) {
        EraseKeepsBst(t.left, x);
      } else {
        EraseKeepsBst(t.right, x);
      }
    }
  }

  lemma LookupAfterInsert(t: Tree, x: Item, a: nat)
    requires Bst(t) && x.lo <= x.hi && x !in Items(t) && Insert(t, x).Some?
    ensures Lookup(Insert(t, x).value, a) == if Contains(x, a) then Some(x) else Lookup(t, a)
  {
    hide Bst, Insert, Lookup;
    InsertKeepsBst(t, x);
    var t' := Insert(t, x).value;
    if Contains(x, a) {
      LookupIsScan(t', a, x);
    } else if Lookup(t, a).Some? {
      LookupIsScan(t', a, Lookup(t, a).value);
    } else if Lookup(t', a).Some? {
      LookupIsScan(t, a, Lookup(t', a).value);
    }
  }

  lemma LookupAfterErase(t: Tree, x: Item, a: nat)
    requires Bst(t) && x in Items(t)
    ensures Lookup(Erase(t, x), a) == if Contains(x, a) then None else Lookup(t, a)
  {
    hide Bst, Erase, Lookup;
    EraseKeepsBst(t, x);
    var t' := Erase(t, x);
    if Lookup(t', a).Some? {
      LookupIsScan(t, a, Lookup(t', a).value);
      if Contains(x, a) { LookupIsScan(t, a, x); }
    } else if Lookup(t, a).Some? && !Contains(x, a) {
      LookupIsScan(t', a, Lookup(t, a).value);
    }
  }
}
