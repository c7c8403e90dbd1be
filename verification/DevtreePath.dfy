/** Device-tree paths: the printer that writes a node's path into a buffer, the
    parser that finds a node from a path, and the node references it takes. */
module DevtreePath {
  import opened Common

  /** A C string without its terminator. */
  type Text = s: string | '\0' !in s

  /** `struct vmm_devtree_node`, its children in list order. */
  datatype Tree = Node(name: Text, kids: seq<Tree>)

  /** A node, as the child positions that lead to it from the root. */
  type Place = seq<nat>

  const SEP := '/'

  predicate InTree(t: Tree, at: Place) {
    at == [] || (at[0] < |t.kids| && InTree(t.kids[at[0]], at[1..]))
  }

  function Sub(t: Tree, at: Place): Tree
    requires InTree(t, at)
  {
    if at == [] then t else Sub(t.kids[at[0]], at[1..])
  }

  lemma {:induction false} SubStep(t: Tree, at: Place, k: nat)
    requires InTree(t, at)
    ensures InTree(t, at + [k]) <==> k < |Sub(t, at).kids|
    ensures k < |Sub(t, at).kids| ==> Sub(t, at + [k]) == Sub(t, at).kids[k]
    decreases |at|
  {
    if at == [] {
      assert at + [k] == [k];
    } else {
      SubStep(t.kids[at[0]], at[1..], k);
      assert (at + [k])[0] == at[0] && (at + [k])[1..] == at[1..] + [k];
    }
  }

  // ----- printing -----

  /** The names from `t` down to the node, separated. */
  function PathOf(t: Tree, at: Place): Text
    requires InTree(t, at)
  {
    if at == [] then t.name else t.name + ([SEP] + PathOf(t.kids[at[0]], at[1..]))
  }

  /** What `vmm_devtree_getpath` prints: an unnamed root is a lone separator. */
  function Printed(t: Tree, at: Place): (r: Text)
    requires InTree(t, at)
    ensures r != "" && (PathOf(t, at) != "" ==> r == PathOf(t, at))
    ensures PathOf(t, at) == "" ==> r == [SEP]
  {
    if PathOf(t, at) == "" then [SEP] else PathOf(t, at)
  }

  lemma {:induction false} PathOfChild(t: Tree, at: Place)
    requires at != [] && InTree(t, at)
    ensures InTree(t, at[..|at| - 1])
    ensures PathOf(t, at) == PathOf(t, at[..|at| - 1]) + [SEP] + Sub(t, at).name
    decreases |at|
  {
    var up := at[..|at| - 1];
    if |at| == 1 {
      assert up == [] && at[1..] == [];
    } else {
      PathOfChild(t.kids[at[0]], at[1..]);
      assert up[0] == at[0] && up[1..] == at[1..][..|at| - 2];
    }
  }

  /** The buffer holds `s` as a C string. */
  predicate Holds(buf: seq<char>, s: string) {
    |s| < |buf| && buf[..|s|] == s && buf[|s|] == '\0'
  }

  /** The buffer holds a prefix of `s` as a C string. */
  ghost predicate HoldsPrefix(buf: seq<char>, s: string) {
    exists k: nat :: k <= |s| && Holds(buf, s[..k])
  }

  /** Only the first `n` cells differ. */
  predicate SameFrom(a: seq<char>, b: seq<char>, n: nat) {
    |a| == |b| && (n <= |a| ==> a[n..] == b[n..])
  }

  lemma SameFromChain(a: seq<char>, b: seq<char>, c: seq<char>, n: nat)
    requires SameFrom(a, b, n) && SameFrom(b, c, n)
    ensures SameFrom(a, c, n)
  {
  }

  /** `strncpy` of a name behind the text `done`, and the terminator. */
  method PutName(buf: array<char>, pos: nat, name: Text, ghost done: Text)
    requires pos == |done| && pos + |name| < buf.Length && Holds(buf[..], done)
    modifies buf
    ensures Holds(buf[..], done + name) && SameFrom(buf[..], old(buf[..]), pos + |name| + 1)
  {
    var i := 0;
    while i < |name|
      invariant 0 <= i <= |name|
      invariant buf[..pos + i] == done + name[..i]
      invariant buf[pos + i..] == old(buf[pos + i..])
    {
      buf[pos + i] := name[i];
      i := i + 1;
    }
    buf[pos + |name|] := '\0';
  }

  /** A piece of the path is written if it fits with its terminator. */
  method Append(buf: array<char>, len: nat, pos: nat, name: Text, ghost done: Text, ghost before: seq<char>)
    returns (rc: int, end: nat)
    requires pos == |done| < len <= buf.Length && Holds(buf[..], done) && SameFrom(buf[..], before, pos + 1)
    modifies buf
    ensures rc == if pos + |name| < len then VMM_OK else VMM_ENOSPC
    ensures rc == VMM_OK ==> end == pos + |name| && Holds(buf[..], done + name) && SameFrom(buf[..], before, end + 1)
    ensures rc != VMM_OK ==> Holds(buf[..], done) && SameFrom(buf[..], before, len)
  {
    hide Holds, SameFrom;
    if len - pos < |name| + 1 {
      SameFromMore(buf[..], before, pos + 1, len);
      return VMM_ENOSPC, pos;
    }
    ghost var between := buf[..];
    PutName(buf, pos, name, done);
    SameFromMore(between, before, pos + 1, pos + |name| + 1);
    SameFromChain(buf[..], between, before, pos + |name| + 1);
    rc, end := VMM_OK, pos + |name|;
  }

  /** `recursive_getpath` on the buffer `buf[..len]`. */
  method PrintFrom(t: Tree, at: Place, buf: array<char>, len: nat) returns (rc: int, pos: nat)
    requires InTree(t, at) && 1 <= len <= buf.Length && Holds(buf[..], "")
    modifies buf
    ensures rc == if |PathOf(t, at)| < len then VMM_OK else VMM_ENOSPC
    ensures rc == VMM_OK ==> pos == |PathOf(t, at)| && Holds(buf[..], PathOf(t, at))
    ensures HoldsPrefix(buf[..], PathOf(t, at))
    ensures SameFrom(buf[..], old(buf[..]), if |PathOf(t, at)| < len then |PathOf(t, at)| + 1 else len)
    decreases |at|
  {
    hide PathOf, Sub, Holds, HoldsPrefix, SameFrom;
    ghost var path, before := PathOf(t, at), buf[..];
    ghost var done: Text := "";
    pos := 0;
    if at == [] {
      PathOfRoot(t);
      SameFromAny(before);
    } else {
      PathOfChild(t, at);
      ghost var up := PathOf(t, at[..|at| - 1]);
      rc, pos := PrintFrom(t, at[..|at| - 1], buf, len);
      if rc != VMM_OK {
        PrefixOfPrefix(buf[..], up, path);
        return;
      }
      rc, pos := Append(buf, len, pos, [SEP], up, before);
      if rc != VMM_OK {
        WholeIsPrefix(buf[..], up, path);
        return;
      }
      done := up + [SEP];
    }
    rc, pos := Append(buf, len, pos, Sub(t, at).name, done, before);
    WholeIsPrefix(buf[..], if rc == VMM_OK then path else done, path);
  }

  lemma PathOfRoot(t: Tree)
    ensures PathOf(t, []) == t.name && Sub(t, []) == t && "" + t.name == t.name
  {
  }

  lemma SameFromAny(a: seq<char>)
    ensures forall n: nat :: SameFrom(a, a, n)
  {
  }

  lemma SameFromMore(a: seq<char>, b: seq<char>, m: nat, n: nat)
    requires SameFrom(a, b, m) && m <= n
    ensures SameFrom(a, b, n)
  {
    if n <= |a| {
      assert a[n..] == a[m..][n - m..] && b[n..] == b[m..][n - m..];
    }
  }

  lemma WholeIsPrefix(buf: seq<char>, s: string, path: string)
    requires s <= path && Holds(buf, s)
    ensures HoldsPrefix(buf, path)
  {
    assert path[..|s|] == s;
  }

  lemma PrefixOfPrefix(buf: seq<char>, s: string, path: string)
    requires s <= path && HoldsPrefix(buf, s)
    ensures HoldsPrefix(buf, path)
  {
    var k: nat :| k <= |s| && Holds(buf, s[..k]);
    assert path[..k] == s[..k];
  }

  /** `vmm_devtree_getpath`. */
  method GetPath(t: Tree, at: Place, buf: array<char>, len: nat) returns (rc: int)
    requires InTree(t, at) && len <= buf.Length
    modifies buf
    ensures rc == VMM_OK <==> |Printed(t, at)| < len
    ensures rc == if len < 2 then VMM_EFAIL else if |Printed(t, at)| < len then VMM_OK else VMM_ENOSPC
    ensures rc == VMM_OK ==> Holds(buf[..], Printed(t, at))
    ensures 2 <= len ==> HoldsPrefix(buf[..], Printed(t, at))
    ensures SameFrom(buf[..], old(buf[..]), if rc == VMM_OK then |Printed(t, at)| + 1 else len)
    ensures rc == VMM_EFAIL ==> buf[..] == old(buf[..])
  {
    if len < 2 {
      return VMM_EFAIL;
    }
    buf[0] := '\0';
    var pos;
    rc, pos := PrintFrom(t, at, buf, len);
    if rc != VMM_OK {
      return;
    }
    if buf[0] == '\0' {
      buf[0] := SEP;
      buf[1] := '\0';
      assert Holds(buf[..], [SEP]);
    }
    WholeIsPrefix(buf[..], Printed(t, at), Printed(t, at));
  }

  // ----- finding a node by its path -----

  /** A child is taken for `path` when its name is followed by the end, a
      separator, or one last character. */
  predicate Takes(name: Text, path: Text) {
    name <= path && (|path| <= |name| + 1 || path[|name|] == SEP)
  }

  /** The path that is left: the separator is skipped, a last character is not. */
  function Rest(name: Text, path: Text): (r: Text)
    requires Takes(name, path)
    ensures |r| <= |path|
  {
    if |path| > |name| && path[|name|] == SEP then path[|name| + 1..] else path[|name|..]
  }

  /** The first child taken for `path`. */
  function Pick(kids: seq<Tree>, path: Text): (k: nat)
    ensures k <= |kids|
    ensures forall j :: 0 <= j < k ==> !Takes(kids[j].name, path)
    ensures k < |kids| ==> Takes(kids[k].name, path)
  {
    if kids == [] || Takes(kids[0].name, path) then 0 else 1 + Pick(kids[1..], path)
  }

  /** How a search ends: at a node; with no child's name starting the path; or
      with some child's name starting the path but none taken. */
  datatype End = Found | Missing | Astray

  function Walk(t: Tree, path: Text): (Place, End) {
    if path == "" then ([], Found)
    else
      var k := Pick(t.kids, path);
      if k < |t.kids| then
        var r := Walk(t.kids[k], Rest(t.kids[k].name, path));
        ([k] + r.0, r.1)
      else ([], if exists j :: 0 <= j < |t.kids| && t.kids[j].name <= path then Astray else Missing)
  }

  function Lookup(t: Tree, path: Text): Option<Place> {
    var r := Walk(t, path);
    if r.1.Found? then Some(r.0) else None
  }

  /** The path behind its leading separators. */
  function SkipSeps(path: Text): (r: Text)
    ensures (r == "" || r[0] != SEP) && |r| <= |path| && r == path[|path| - |r|..]
    ensures forall i :: 0 <= i < |path| - |r| ==> path[i] == SEP
  {
    if path != "" && path[0] == SEP then SkipSeps(path[1..]) else path
  }

  /** `vmm_devtree_getnode` of a path. */
  function NodeAt(t: Tree, path: Text): Option<Place> {
    if Takes(t.name, path) then Lookup(t, SkipSeps(Rest(t.name, path))) else None
  }

  // ----- printing and finding undo each other -----

  /** No name below `t` contains a separator. */
  predicate Plain(t: Tree) {
    forall k :: 0 <= k < |t.kids| ==> SEP !in t.kids[k].name && Plain(t.kids[k])
  }

  /** No name on the way to the node is empty. */
  predicate Named(t: Tree, at: Place)
    requires InTree(t, at)
  {
    at == [] || (t.kids[at[0]].name != "" && Named(t.kids[at[0]], at[1..]))
  }

  /** No earlier sibling of a node on the way has its name, and no earlier
      sibling of the node itself has its name without the last character. */
  predicate Unshadowed(t: Tree, at: Place)
    requires InTree(t, at) && Named(t, at)
  {
    at == [] || (
      var name := t.kids[at[0]].name;
      && (forall j :: 0 <= j < at[0] ==> t.kids[j].name != name)
      && (|at| == 1 ==> forall j :: 0 <= j < at[0] ==> t.kids[j].name != name[..|name| - 1])
      && Unshadowed(t.kids[at[0]], at[1..])
    )
  }

  /** Which names are taken for a last component. */
  lemma TakesLast(other: Text, name: Text)
    requires SEP !in other && SEP !in name && name != ""
    ensures Takes(other, name) <==> other == name || other == name[..|name| - 1]
  {
  }

  /** Which names are taken for an inner component. */
  lemma TakesInner(other: Text, name: Text, tail: Text)
    requires SEP !in other && SEP !in name && tail != ""
    ensures Takes(other, name + ([SEP] + tail)) <==> other == name
  {
    var path := name + ([SEP] + tail);
    assert path[|name|] == SEP && path[..|name|] == name;
  }

  lemma RestLast(name: Text)
    ensures Takes(name, name) && Rest(name, name) == ""
  {
  }

  lemma RestInner(name: Text, tail: Text)
    ensures Takes(name, name + ([SEP] + tail)) && Rest(name, name + ([SEP] + tail)) == tail
  {
  }

  lemma PathNonEmpty(t: Tree, at: Place)
    requires InTree(t, at) && (t.name != "" || at != [])
    ensures PathOf(t, at) != ""
  {
  }

  /** One step of a search that ends at `at`. */
  lemma LookupVia(t: Tree, path: Text, at: Place)
    requires path != "" && at != []
    ensures var k := Pick(t.kids, path);
            Lookup(t, path) == Some(at) <==>
              && k == at[0] && k < |t.kids|
              && Lookup(t.kids[k], Rest(t.kids[k].name, path)) == Some(at[1..])
  {
    assert [at[0]] + at[1..] == at;
    forall k: nat, r: Place | [k] + r == at ensures k == at[0] && r == at[1..] {
      assert ([k] + r)[0] == k && ([k] + r)[1..] == r;
    }
  }

  /** Below `t`, the printed path finds the node exactly when nothing shadows it. */
  lemma {:induction false} LookupIff(t: Tree, at: Place)
    requires at != [] && InTree(t, at) && Plain(t) && Named(t, at)
    ensures Lookup(t, PathOf(t.kids[at[0]], at[1..])) == Some(at) <==> Unshadowed(t, at)
    decreases |at|
  {
    hide Takes, Rest, Lookup;
    var i, rest := at[0], at[1..];
    var kid := t.kids[i];
    var path := PathOf(kid, rest);
    PathNonEmpty(kid, rest);
    LookupVia(t, path, at);
    if rest == [] {
      RestLast(kid.name);
      forall j | 0 <= j < |t.kids|
        ensures Takes(t.kids[j].name, path) <==> t.kids[j].name == kid.name || t.kids[j].name == kid.name[..|kid.name| - 1]
      {
        TakesLast(t.kids[j].name, kid.name);
      }
      EmptyWalk(kid);
    } else {
      var tail := PathOf(kid.kids[rest[0]], rest[1..]);
      PathNonEmpty(kid.kids[rest[0]], rest[1..]);
      RestInner(kid.name, tail);
      forall j | 0 <= j < |t.kids| ensures Takes(t.kids[j].name, path) <==> t.kids[j].name == kid.name {
        TakesInner(t.kids[j].name, kid.name, tail);
      }
      LookupIff(kid, rest);
    }
  }

  /** The round trip: a node is found under its printed path if and only if no
      earlier sibling shadows it. */
  lemma RoundTripIff(t: Tree, at: Place)
    requires InTree(t, at) && Plain(t) && Named(t, at)
    ensures NodeAt(t, Printed(t, at)) == Some(at) <==> Unshadowed(t, at)
  {
    hide Takes, Rest, Walk;
    var path := Printed(t, at);
    if at == [] {
      if t.name == "" {
        RestInner("", "");
        assert "" + ([SEP] + "") == [SEP] == path;
      } else {
        RestLast(t.name);
      }
      assert SkipSeps("") == "";
      EmptyWalk(t);
    } else {
      var kid := t.kids[at[0]];
      var tail := PathOf(kid, at[1..]);
      RestInner(t.name, tail);
      assert tail[0] == kid.name[0];
      assert SkipSeps(tail) == tail;
      LookupIff(t, at);
    }
  }

  lemma EmptyWalk(t: Tree)
    ensures Walk(t, "") == ([], Found) && Lookup(t, "") == Some([])
  {
  }

  /** A path with its separators removed. */
  function Bare(path: string): string {
    if path == "" then "" else if path[0] == SEP then Bare(path[1..]) else [path[0]] + Bare(path[1..])
  }

  /** The names from below `t` down to the node, run together. */
  function Spelled(t: Tree, at: Place): string
    requires InTree(t, at)
  {
    if at == [] then "" else t.kids[at[0]].name + Spelled(t.kids[at[0]], at[1..])
  }

  lemma {:induction false} BareAppend(a: string, b: string)
    requires SEP !in a
    ensures Bare(a + b) == a + Bare(b)
    decreases |a|
  {
    if a == "" {
      assert a + b == b;
    } else {
      BareAppend(a[1..], b);
      assert (a + b)[0] == a[0] && (a + b)[1..] == a[1..] + b;
    }
  }

  lemma BareRest(name: Text, path: Text)
    requires SEP !in name && Takes(name, path)
    ensures Bare(path) == name + Bare(Rest(name, path))
  {
    assert path == name + path[|name|..];
    BareAppend(name, path[|name|..]);
    if |path| > |name| && path[|name|] == SEP {
      assert path[|name|..][1..] == path[|name| + 1..];
    }
  }

  /** A search stays in the tree, and a path that finds a node spells the names
      that lead to it. */
  lemma {:induction false} LookupSpells(t: Tree, path: Text)
    requires Plain(t)
    ensures InTree(t, Walk(t, path).0)
    ensures Lookup(t, path).Some? ==> Bare(path) == Spelled(t, Lookup(t, path).value)
    decreases t
  {
    hide Takes, Rest, Bare;
    if path == "" {
      EmptyBare();
    } else {
      var k := Pick(t.kids, path);
      if k < |t.kids| {
        var rest := Rest(t.kids[k].name, path);
        LookupSpells(t.kids[k], rest);
        BareRest(t.kids[k].name, path);
        var w := Walk(t.kids[k], rest);
        assert Walk(t, path).0 == [k] + w.0 && ([k] + w.0)[1..] == w.0;
      }
    }
  }

  lemma EmptyBare()
    ensures Bare("") == ""
  {
  }

  // ----- trees built by adding nodes -----

  /** `vmm_devtree_addnode` puts a new node behind the children of its parent... */
  function Insert(t: Tree, at: Place, name: Text): Tree
    requires InTree(t, at)
  {
    if at == [] then Node(t.name, t.kids + [Node(name, [])])
    else Node(t.name, t.kids[at[0] := Insert(t.kids[at[0]], at[1..], name)])
  }

  /** ...unless one of them has its name. */
  function AddNodeSpec(t: Tree, at: Place, name: Text): (Tree, Option<Place>)
    requires InTree(t, at)
  {
    var kids := Sub(t, at).kids;
    if exists k :: 0 <= k < |kids| && kids[k].name == name then (t, None)
    else (Insert(t, at, name), Some(at + [|kids|]))
  }

  /** No two siblings have the same name. */
  predicate NoTwins(t: Tree) {
    && (forall i, j :: 0 <= i < j < |t.kids| ==> t.kids[i].name != t.kids[j].name)
    && (forall k :: 0 <= k < |t.kids| ==> NoTwins(t.kids[k]))
  }

  lemma {:induction false} AddKeepsTree(t: Tree, at: Place, name: Text)
    requires InTree(t, at) && Plain(t) && NoTwins(t) && SEP !in name
    ensures var t' := AddNodeSpec(t, at, name).0; Plain(t') && NoTwins(t') && t'.name == t.name
    decreases |at|
  {
    var kids := Sub(t, at).kids;
    if !(exists k :: 0 <= k < |kids| && kids[k].name == name) && at != [] {
      var i := at[0];
      AddKeepsTree(t.kids[i], at[1..], name);
      var t' := Insert(t, at, name);
      forall k | 0 <= k < |t'.kids|
        ensures t'.kids[k].name == t.kids[k].name && Plain(t'.kids[k]) && NoTwins(t'.kids[k])
      {
        assert k != i ==> t'.kids[k] == t.kids[k];
      }
    }
  }

  /** A node is added unless a sibling has its name. It is then the last child of
      its parent, without children of its own. */
  lemma AddedNode(t: Tree, at: Place, name: Text)
    requires InTree(t, at)
    ensures var kids := Sub(t, at).kids;
            var r := AddNodeSpec(t, at, name);
            if exists k :: 0 <= k < |kids| && kids[k].name == name then r == (t, None)
            else
              && r.1 == Some(at + [|kids|]) && InTree(r.0, at) && InTree(r.0, at + [|kids|])
              && Sub(r.0, at + [|kids|]) == Node(name, []) && Sub(r.0, at).kids == kids + [Node(name, [])]
  {
    hide Insert;
    var kids := Sub(t, at).kids;
    InsertedNode(t, at, name);
    SubStep(Insert(t, at, name), at, |kids|);
    assert (kids + [Node(name, [])])[|kids|] == Node(name, []);
  }

  lemma {:induction false} InsertedNode(t: Tree, at: Place, name: Text)
    requires InTree(t, at)
    ensures var t' := Insert(t, at, name);
            InTree(t', at) && Sub(t', at).kids == Sub(t, at).kids + [Node(name, [])]
    decreases |at|
  {
    if at != [] {
      InsertedNode(t.kids[at[0]], at[1..], name);
      var t' := Insert(t, at, name);
      assert t'.kids[at[0]] == Insert(t.kids[at[0]], at[1..], name);
    }
  }

  /** Adding a node leaves every node where it is, with its path, and shadows
      none that was in the tree. */
  lemma {:induction false} AddKeepsNode(t: Tree, at: Place, name: Text, n: Place)
    requires InTree(t, at) && InTree(t, n)
    ensures var t' := Insert(t, at, name);
            && InTree(t', n) && PathOf(t', n) == PathOf(t, n)
            && Named(t', n) == Named(t, n)
            && (Named(t, n) ==> Unshadowed(t', n) == Unshadowed(t, n))
    decreases |at|
  {
    var t' := Insert(t, at, name);
    if n != [] {
      var k := n[0];
      forall j | 0 <= j < |t.kids| ensures t'.kids[j].name == t.kids[j].name {}
      if at != [] && at[0] == k {
        AddKeepsNode(t.kids[k], at[1..], name, n[1..]);
      } else {
        assert t'.kids[k] == t.kids[k];
      }
    }
  }

  /** A request to add a node; the name fits the name field. */
  datatype Add = Add(at: Place, name: Text)

  predicate Sensible(t: Tree, a: Add) {
    InTree(t, a.at) && SEP !in a.name && a.name != "" && |a.name| < VMM_FIELD_SHORT_NAME_SIZE
  }

  const VMM_FIELD_SHORT_NAME_SIZE := 32

  predicate AllSensible(t: Tree, adds: seq<Add>)
    decreases |adds|
  {
    adds == [] || (Sensible(t, adds[0]) && AllSensible(AddNodeSpec(t, adds[0].at, adds[0].name).0, adds[1..]))
  }

  function Build(t: Tree, adds: seq<Add>): Tree
    requires AllSensible(t, adds)
    decreases |adds|
  {
    if adds == [] then t else Build(AddNodeSpec(t, adds[0].at, adds[0].name).0, adds[1..])
  }

  /** Every name below `t` is non-empty. */
  predicate AllNamed(t: Tree) {
    forall k :: 0 <= k < |t.kids| ==> t.kids[k].name != "" && AllNamed(t.kids[k])
  }

  lemma {:induction false} AllNamedNamed(t: Tree, at: Place)
    requires AllNamed(t) && InTree(t, at)
    ensures Named(t, at)
    decreases |at|
  {
    if at != [] { AllNamedNamed(t.kids[at[0]], at[1..]); }
  }

  lemma {:induction false} InsertKeepsNamed(t: Tree, at: Place, name: Text)
    requires InTree(t, at) && AllNamed(t) && name != ""
    ensures AllNamed(Insert(t, at, name))
    decreases |at|
  {
    if at != [] {
      InsertKeepsNamed(t.kids[at[0]], at[1..], name);
      var t' := Insert(t, at, name);
      forall k | 0 <= k < |t'.kids| ensures t'.kids[k].name != "" && AllNamed(t'.kids[k]) {
        assert k != at[0] ==> t'.kids[k] == t.kids[k];
      }
    }
  }

  lemma {:induction false} BuiltTree(t: Tree, adds: seq<Add>)
    requires Plain(t) && NoTwins(t) && AllNamed(t) && AllSensible(t, adds)
    ensures var r := Build(t, adds); Plain(r) && NoTwins(r) && AllNamed(r)
    decreases |adds|
  {
    hide Plain, NoTwins, AllNamed, Insert;
    if adds != [] {
      AddKeepsTree(t, adds[0].at, adds[0].name);
      InsertKeepsNamed(t, adds[0].at, adds[0].name);
      BuiltTree(AddNodeSpec(t, adds[0].at, adds[0].name).0, adds[1..]);
    }
  }

  /** No earlier sibling of the node has its name without the last character. */
  predicate Unclipped(t: Tree, at: Place)
    requires InTree(t, at) && Named(t, at)
  {
    at == [] || (
      var name := t.kids[at[0]].name;
      if |at| > 1 then Unclipped(t.kids[at[0]], at[1..])
      else forall j :: 0 <= j < at[0] ==> t.kids[j].name != name[..|name| - 1]
    )
  }

  lemma {:induction false} NoTwinsUnshadowed(t: Tree, at: Place)
    requires InTree(t, at) && Named(t, at) && NoTwins(t)
    ensures Unshadowed(t, at) <==> Unclipped(t, at)
    decreases |at|
  {
    if at != [] { NoTwinsUnshadowed(t.kids[at[0]], at[1..]); }
  }

  /** In every tree built by adding nodes to a bare root, a node is found under
      its printed path if and only if no earlier sibling has its name without
      the last character. */
  lemma BuiltRoundTripIff(root: Text, adds: seq<Add>, at: Place)
    requires AllSensible(Node(root, []), adds) && InTree(Build(Node(root, []), adds), at)
    ensures var t := Build(Node(root, []), adds);
            Named(t, at) && (NodeAt(t, Printed(t, at)) == Some(at) <==> Unclipped(t, at))
  {
    hide Plain, NoTwins, AllNamed, Unshadowed, Unclipped, NodeAt, Printed, Build;
    var t := Build(Node(root, []), adds);
    BareRootIsGood(root);
    BuiltTree(Node(root, []), adds);
    AllNamedNamed(t, at);
    RoundTripIff(t, at);
    NoTwinsUnshadowed(t, at);
  }

  lemma BareRootIsGood(root: Text)
    ensures var t := Node(root, []); Plain(t) && NoTwins(t) && AllNamed(t)
  {
  }

  // ----- a node that its path does not find -----

  const U := Node("u", [])
  const U1 := Node("u1", [])
  const UNITS := Node("", [U, U1])

  /** The path of `u1` behind `u` does not lead to `u1`. */
  lemma U1IsShadowed()
    ensures InTree(UNITS, [1]) && Printed(UNITS, [1]) == "/u1" && NoTwins(UNITS)
    ensures NodeAt(UNITS, "/u1") != Some([1])
  {
    hide NodeAt;
    assert UNITS.kids[0] == U && UNITS.kids[1] == U1 && [1][1..] == [];
    assert PathOf(UNITS, [1]) == "" + ([SEP] + PathOf(U1, [])) == "/u1";
    assert U1.name[..1] == U.name;
    RoundTripIff(UNITS, [1]);
  }

  // ----- the search in place, with its node references -----

  /** One reference on each node below `node` on the way down `below`. */
  function Chain(node: Place, below: Place): multiset<Place> {
    if below == [] then multiset{} else Chain(node, below[..|below| - 1]) + multiset{node + below}
  }

  /** The references a search leaves behind. */
  function HeldAfter(node: Place, w: (Place, End)): multiset<Place> {
    match w.1
    case Found => multiset{node + w.0}
    case Missing => multiset{}
    case Astray => Chain(node, w.0)
  }

  // ----- when a search keeps stray references -----

  /** Where the first separator is, or the end. */
  function Cut(path: Text): (k: nat)
    ensures k <= |path| && SEP !in path[..k] && (k < |path| ==> path[k] == SEP)
  {
    if path == "" || path[0] == SEP then 0
    else
      var k := Cut(path[1..]);
      assert path[..k + 1] == [path[0]] + path[1..][..k];
      k + 1
  }

  /** The components of a path. */
  function Split(path: Text): (r: seq<Text>)
    ensures |r| > 0
  {
    var k := Cut(path);
    if k == |path| then [path] else [path[..k]] + Split(path[k + 1..])
  }

  /** The first child with that name. */
  function ChildNamed(kids: seq<Tree>, name: Text): (k: nat)
    ensures k <= |kids|
    ensures forall j :: 0 <= j < k ==> kids[j].name != name
    ensures k < |kids| ==> kids[k].name == name
  {
    if kids == [] || kids[0].name == name then 0 else 1 + ChildNamed(kids[1..], name)
  }

  predicate HasChild(t: Tree, name: Text) { exists k :: 0 <= k < |t.kids| && t.kids[k].name == name }

  /** The node that the components name, child by child. */
  function Reach(t: Tree, comps: seq<Text>): Option<Tree>
    decreases |comps|
  {
    if comps == [] then Some(t)
    else
      var k := ChildNamed(t.kids, comps[0]);
      if k < |t.kids| then Reach(t.kids[k], comps[1..]) else None
  }

  /** No child has the name of the next component, nor, for the last component,
      its name without the last character; but the name of some child is a
      proper prefix of it. */
  predicate Stuck(t: Tree, comps: seq<Text>)
    requires comps != []
  {
    && !HasChild(t, comps[0])
    && (|comps| == 1 && comps[0] != "" ==> !HasChild(t, comps[0][..|comps[0]| - 1]))
    && exists k :: 0 <= k < |t.kids| && t.kids[k].name < comps[0]
  }

  /** Some components, at least one, name a node that is stuck with the rest. */
  predicate Strays(t: Tree, comps: seq<Text>) {
    exists i :: 1 <= i < |comps| && StuckAfter(t, comps, i)
  }

  predicate StuckAfter(t: Tree, comps: seq<Text>, i: nat)
    requires i < |comps|
  {
    var n := Reach(t, comps[..i]);
    n.Some? && Stuck(n.value, comps[i..])
  }

  /** The components of a path with a separator. */
  lemma SplitInner(path: Text)
    requires Cut(path) < |path|
    ensures var name, tail := path[..Cut(path)], path[Cut(path) + 1..];
            path == name + ([SEP] + tail) && SEP !in name && Split(path) == [name] + Split(tail)
  {
    var k := Cut(path);
    assert path == path[..k] + ([path[k]] + path[k + 1..]);
  }

  lemma StraysStep(t: Tree, name: Text, rest: seq<Text>)
    requires rest != []
    ensures var k := ChildNamed(t.kids, name);
            Strays(t, [name] + rest) <==> k < |t.kids| && (Stuck(t.kids[k], rest) || Strays(t.kids[k], rest))
  {
    var comps, k := [name] + rest, ChildNamed(t.kids, name);
    forall i | 1 <= i < |comps|
      ensures StuckAfter(t, comps, i) <==> k < |t.kids| && StuckAfter(t.kids[k], rest, i - 1)
    {
      assert comps[..i][0] == name && comps[..i][1..] == rest[..i - 1] && comps[i..] == rest[i - 1..];
    }
    if k < |t.kids| {
      assert rest[..0] == [] && rest[0..] == rest;
      assert StuckAfter(t.kids[k], rest, 0) <==> Stuck(t.kids[k], rest);
      if Stuck(t.kids[k], rest) { assert StuckAfter(t, comps, 1); }
      if Strays(t.kids[k], rest) {
        var i :| 1 <= i < |rest| && StuckAfter(t.kids[k], rest, i);
        assert StuckAfter(t, comps, i + 1);
      }
    }
  }

  /** A child that starts an inner component ends in it. */
  lemma StartsInner(other: Text, name: Text, tail: Text)
    requires SEP !in other && SEP !in name
    ensures Takes(other, name + ([SEP] + tail)) <==> other == name
    ensures other <= name + ([SEP] + tail) <==> other <= name
  {
    var path := name + ([SEP] + tail);
    assert path[|name|] == SEP && path[..|name|] == name;
    assert |other| <= |name| ==> path[..|other|] == name[..|other|];
  }

  /** A path of one character never leads astray. */
  lemma {:induction false} OneCharWalk(t: Tree, path: Text)
    requires |path| <= 1
    ensures !Walk(t, path).1.Astray?
    decreases t
  {
    if path != "" {
      var k := Pick(t.kids, path);
      if k < |t.kids| {
        OneCharWalk(t.kids[k], Rest(t.kids[k].name, path));
      } else {
        assert forall j :: 0 <= j < |t.kids| ==> !(t.kids[j].name <= path);
      }
    }
  }

  lemma TakenRest(name: Text, path: Text)
    requires Takes(name, path) && SEP !in path
    ensures |Rest(name, path)| <= 1
  {
  }

  /** The last component: astray exactly when stuck. */
  lemma LastWalk(t: Tree, path: Text)
    requires Plain(t) && SEP !in path
    ensures Walk(t, path).1.Astray? <==> Stuck(t, [path])
    ensures Walk(t, path).1.Astray? ==> Walk(t, path).0 == []
  {
    hide Takes, Rest;
    if path != "" {
      forall j | 0 <= j < |t.kids|
        ensures Takes(t.kids[j].name, path) <==> t.kids[j].name == path || t.kids[j].name == path[..|path| - 1]
      {
        TakesLast(t.kids[j].name, path);
      }
      var k := Pick(t.kids, path);
      if k < |t.kids| {
        TakenRest(t.kids[k].name, path);
        OneCharWalk(t.kids[k], Rest(t.kids[k].name, path));
      }
    }
  }

  /** The search goes astray exactly where the components are stuck, and below
      the start exactly when they stray. */
  lemma {:induction false} AstrayIff(t: Tree, path: Text)
    requires Plain(t)
    ensures var w := Walk(t, path);
            && (w.1.Astray? && w.0 == [] <==> Stuck(t, Split(path)))
            && (w.1.Astray? && w.0 != [] <==> Strays(t, Split(path)))
    decreases t
  {
    hide Takes, Rest, Stuck, Strays, Split;
    var c := Cut(path);
    if c == |path| {
      LastSplit(path);
      LastWalk(t, path);
    } else {
      SplitInner(path);
      var name, tail := path[..c], path[c + 1..];
      forall j | 0 <= j < |t.kids|
        ensures Takes(t.kids[j].name, path) <==> t.kids[j].name == name
        ensures t.kids[j].name <= path <==> t.kids[j].name <= name
      {
        StartsInner(t.kids[j].name, name, tail);
      }
      PickIsNamed(t.kids, path, name);
      StraysStep(t, name, Split(tail));
      StuckInner(t, name, Split(tail));
      var k := ChildNamed(t.kids, name);
      if k < |t.kids| {
        RestInner(name, tail);
        AstrayIff(t.kids[k], tail);
      }
    }
  }

  lemma LastSplit(path: Text)
    requires Cut(path) == |path|
    ensures Split(path) == [path] && SEP !in path && forall t :: !Strays(t, [path])
  {
    assert path[..|path|] == path;
  }

  lemma PickIsNamed(kids: seq<Tree>, path: Text, name: Text)
    requires forall j :: 0 <= j < |kids| ==> (Takes(kids[j].name, path) <==> kids[j].name == name)
    ensures Pick(kids, path) == ChildNamed(kids, name)
  {
    hide Takes;
    var k := Pick(kids, path);
  }

  lemma StuckInner(t: Tree, name: Text, rest: seq<Text>)
    requires rest != []
    ensures Stuck(t, [name] + rest) <==>
      ChildNamed(t.kids, name) == |t.kids| && exists k :: 0 <= k < |t.kids| && t.kids[k].name <= name
  {
  }

  /** A search holds a reference on the node it returns and on nothing else, if
      and only if the path does not stray: no components, at least one, name a
      node none of whose children is taken for the next component although the
      name of one starts it. */
  lemma BalancedIff(node: Place, t: Tree, path: Text)
    requires Plain(t)
    ensures var found := Lookup(t, path);
            (HeldAfter(node, Walk(t, path)) == (if found.Some? then multiset{node + found.value} else multiset{})
             <==> !Strays(t, Split(path)))
  {
    hide Strays, Split;
    AstrayIff(t, path);
    var w := Walk(t, path);
    if w.1.Astray? && w.0 != [] {
      assert (node + w.0) in Chain(node, w.0);
    }
  }

  // ----- what a path finds, by its components -----

  /** The first child with the name, or with the name without its last
      character. */
  function ChildFor(kids: seq<Tree>, name: Text): (k: nat)
    requires name != ""
    ensures k <= |kids|
    ensures forall j :: 0 <= j < k ==> kids[j].name != name && kids[j].name != name[..|name| - 1]
    ensures k < |kids| ==> kids[k].name == name || kids[k].name == name[..|name| - 1]
  {
    if kids == [] || kids[0].name == name || kids[0].name == name[..|name| - 1] then 0
    else 1 + ChildFor(kids[1..], name)
  }

  function Below(k: nat, r: Option<Place>): Option<Place> {
    if r.None? then None else Some([k] + r.value)
  }

  /** The node for the components of a path: an inner one names a child; the last
      one names a child, or a child and, with its last character, one below. */
  function Resolve(t: Tree, comps: seq<Text>): Option<Place>
    requires comps != []
  {
    if |comps| > 1 then
      var k := ChildNamed(t.kids, comps[0]);
      if k == |t.kids| then None else Below(k, Resolve(t.kids[k], comps[1..]))
    else if comps[0] == "" then Some([])
    else
      var k, last := ChildFor(t.kids, comps[0]), |comps[0]| - 1;
      if k == |t.kids| then None
      else if t.kids[k].name == comps[0] then Some([k])
      else Below(k, Resolve(t.kids[k], [comps[0][last..]]))
  }

  lemma PickIsFor(kids: seq<Tree>, name: Text)
    requires name != "" && forall j :: 0 <= j < |kids| ==>
      (Takes(kids[j].name, name) <==> kids[j].name == name || kids[j].name == name[..|name| - 1])
    ensures Pick(kids, name) == ChildFor(kids, name)
  {
    hide Takes;
    var k := Pick(kids, name);
  }

  lemma RestOfClipped(name: Text)
    requires name != "" && SEP !in name
    ensures Takes(name[..|name| - 1], name) && Rest(name[..|name| - 1], name) == name[|name| - 1..]
  {
  }

  lemma LookupStep(t: Tree, path: Text)
    requires path != ""
    ensures var k := Pick(t.kids, path);
            Lookup(t, path) == if k < |t.kids| then Below(k, Lookup(t.kids[k], Rest(t.kids[k].name, path))) else None
  {
    hide Takes, Rest;
  }

  /** Every path finds what its components resolve to. */
  lemma {:induction false} LookupIsResolve(t: Tree, path: Text)
    requires Plain(t)
    ensures Lookup(t, path) == Resolve(t, Split(path))
    decreases t
  {
    hide Takes, Rest, Split, Lookup;
    var c := Cut(path);
    if c < |path| {
      SplitInner(path);
      var name, tail := path[..c], path[c + 1..];
      forall j | 0 <= j < |t.kids| ensures Takes(t.kids[j].name, path) <==> t.kids[j].name == name {
        StartsInner(t.kids[j].name, name, tail);
      }
      PickIsNamed(t.kids, path, name);
      LookupStep(t, path);
      var k := ChildNamed(t.kids, name);
      assert Split(path)[0] == name && Split(path)[1..] == Split(tail);
      if k < |t.kids| {
        RestInner(name, tail);
        LookupIsResolve(t.kids[k], tail);
      }
    } else {
      LastSplit(path);
      if path == "" {
        EmptyWalk(t);
      } else {
        forall j | 0 <= j < |t.kids|
          ensures Takes(t.kids[j].name, path) <==> t.kids[j].name == path || t.kids[j].name == path[..|path| - 1]
        {
          TakesLast(t.kids[j].name, path);
        }
        PickIsFor(t.kids, path);
        LookupStep(t, path);
        var k := ChildFor(t.kids, path);
        if k < |t.kids| {
          if t.kids[k].name == path {
            RestLast(path);
            EmptyWalk(t.kids[k]);
            assert [k] + [] == [k];
          } else {
            RestOfClipped(path);
            OneCharSplit(path[|path| - 1..]);
            LookupIsResolve(t.kids[k], path[|path| - 1..]);
          }
        }
      }
    }
  }

  lemma OneCharSplit(path: Text)
    requires SEP !in path
    ensures Split(path) == [path]
  {
    var c := Cut(path);
  }

  /** Below an unnamed root: a path that starts with separators is looked up
      behind them; of the others only those of at most one character are. */
  lemma AbsolutePath(t: Tree, path: Text)
    requires t.name == "" && Plain(t)
    ensures NodeAt(t, path) ==
      if |path| <= 1 || path[0] == SEP then Resolve(t, Split(SkipSeps(path))) else None
  {
    hide Lookup, Resolve, Split;
    LookupIsResolve(t, SkipSeps(path));
  }

  const B := Node("b", [])
  const A := Node("a", [B])
  const AB := Node("", [A])

  /** Looking up `a/bcd` finds nothing and keeps a reference on `a`. */
  lemma AstrayLeaks()
    ensures Plain(AB) && Split("a/bcd") == ["a", "bcd"] && Strays(AB, Split("a/bcd"))
    ensures Walk(AB, "a/bcd") == ([0], Astray) && HeldAfter([], Walk(AB, "a/bcd")) == multiset{[0]}
  {
    hide Walk, Strays, Split, Chain;
    assert AB.kids[0] == A && A.kids[0] == B;
    assert Plain(B) && Plain(A) && Plain(AB);
    ABWalks();
    ABSplits();
    AstrayIff(AB, "a/bcd");
    OneRef();
  }

  lemma OneRef()
    ensures Chain([], [0]) == multiset{[0]}
  {
    assert [0][..0] == [] && [] + [0] == [0];
    assert Chain([], [0]) == Chain([], []) + multiset{[0]};
  }

  lemma ABWalks()
    ensures Walk(AB, "a/bcd") == ([0], Astray)
  {
    assert AB.kids[0] == A && A.kids[0] == B;
    assert "a/bcd" == "a" + ([SEP] + "bcd");
    RestInner("a", "bcd");
    assert Pick(AB.kids, "a/bcd") == 0;
    assert B.name <= "bcd" && !Takes(B.name, "bcd");
    assert Pick(A.kids, "bcd") == 1;
    assert Walk(A, "bcd") == ([], Astray);
    assert [0] + [] == [0];
  }

  lemma ABSplits()
    ensures Split("a/bcd") == ["a", "bcd"]
  {
    assert "a/bcd"[1..] == "/bcd" && Cut("a/bcd") == 1;
    assert "a/bcd"[2..] == "bcd" && "a/bcd"[..1] == "a";
    assert "bcd"[1..] == "cd" && "cd"[1..] == "d" && "d"[1..] == "";
    assert Cut("") == 0 && Cut("d") == 1 && Cut("cd") == 2 && Cut("bcd") == 3;
    assert Split("bcd") == ["bcd"];
  }

  /** The reference a loop over the children holds when it is at child `c`. */
  function RefOn(t: Tree, at: Place, c: nat): multiset<Place> {
    if c < |t.kids| then multiset{at + [c]} else multiset{}
  }

  lemma MoveRef(base: multiset<Place>, a: multiset<Place>, b: multiset<Place>)
    ensures base + a + b - a == base + b && base + a - a == base && a <= base + a + b && a <= base + a
  {
  }

  lemma NoRef(t: Tree, at: Place, base: multiset<Place>)
    ensures base + RefOn(t, at, |t.kids|) == base
  {
  }

  lemma AddRef(base: multiset<Place>, a: multiset<Place>, b: multiset<Place>)
    ensures base + a + b == base + (a + b)
  {
  }

  /** What a search leaves behind, by its result. */
  lemma FoundHeld(node: Place, t: Tree, path: Text, base: multiset<Place>)
    ensures var w := Walk(t, path);
            && (w.1.Found? ==> HeldAfter(node, w) == multiset{node + w.0})
            && (w.1.Missing? ==> HeldAfter(node, w) == multiset{})
            && (w.1.Astray? ==> HeldAfter(node, w) == Chain(node, w.0))
    ensures Plain(t) ==>
      var w := Walk(t, path);
      (base + HeldAfter(node, w) == base + (if w.1.Found? then multiset{node + w.0} else multiset{})
       <==> !Strays(t, Split(path)))
  {
    hide Plain, Strays, Split, Chain, Walk;
    if Plain(t) {
      BalancedIff(node, t, path);
      CancelRefs(base, HeldAfter(node, Walk(t, path)),
                 if Walk(t, path).1.Found? then multiset{node + Walk(t, path).0} else multiset{});
    }
  }

  lemma CancelRefs(base: multiset<Place>, a: multiset<Place>, b: multiset<Place>)
    ensures base + a == base + b <==> a == b
  {
    if base + a == base + b {
      assert base + a - base == a && base + b - base == b;
    }
  }

  class DevTree {
    var root: Tree
    var refs: multiset<Place>

    constructor (name: Text)
      ensures root == Node(name, []) && refs == multiset{[]}
    {
      root, refs := Node(name, []), multiset{[]};
    }

    /** `vmm_devtree_next_child`: the reference moves to the next child. */
    method NextChild(np: Place, current: nat, ghost base: multiset<Place>) returns (next: nat)
      requires InTree(root, np) && current < |Sub(root, np).kids|
      requires refs == base + RefOn(Sub(root, np), np, current)
      modifies this`refs
      ensures next == current + 1 && refs == base + RefOn(Sub(root, np), np, next)
    {
      hide Sub, InTree;
      var t := Sub(root, np);
      next := current + 1;
      MoveRef(base, RefOn(t, np, current), RefOn(t, np, next));
      refs := refs + RefOn(t, np, next) - RefOn(t, np, current);
    }

    /** The loop over the children of one node, `vmm_devtree_for_each_child`,
        which holds a reference on the child it looks at. */
    method FindChild(np: Place, path: Text) returns (found: bool, child: Option<nat>)
      requires InTree(root, np) && path != ""
      modifies this`refs
      ensures var t := Sub(root, np);
              var k := Pick(t.kids, path);
              && child == (if k < |t.kids| then Some(k) else None)
              && (found <==> exists j :: 0 <= j < |t.kids| && t.kids[j].name <= path)
              && refs == old(refs) + RefOn(t, np, k)
      ensures child.None? ==> refs == old(refs)
    {
      hide Takes, Sub, Pick, InTree, RefOn;
      var t := Sub(root, np);
      var c := 0;
      found := false;
      refs := refs + RefOn(t, np, c);
      while c < |t.kids|
        invariant 0 <= c <= |t.kids|
        invariant forall j :: 0 <= j < c ==> !Takes(t.kids[j].name, path)
        invariant found <==> exists j :: 0 <= j < c && t.kids[j].name <= path
        invariant refs == old(refs) + RefOn(t, np, c)
      {
        if t.kids[c].name <= path {
          found := true;
          if Takes(t.kids[c].name, path) {
            PickIs(t.kids, path, c);
            return true, Some(c);
          }
        }
        TakesPrefix(t.kids[c].name, path);
        c := NextChild(np, c, old(refs));
      }
      PickIs(t.kids, path, c);
      NoRef(t, np, old(refs));
      child := None;
    }

    /** The loop that drops the references from `np` up to `node`. */
    method DropUp(node: Place, below: Place)
      requires Chain(node, below) <= refs
      modifies this`refs
      ensures refs == old(refs) - Chain(node, below)
    {
      var tp := below;
      while tp != []
        invariant Chain(node, tp) <= refs
        invariant refs - Chain(node, tp) == old(refs) - Chain(node, below)
        decreases |tp|
      {
        refs := refs - multiset{node + tp};
        tp := tp[..|tp| - 1];
      }
    }

    /** The leading separators are skipped. */
    method SkipLeading(path: Text) returns (p: Text)
      ensures p == SkipSeps(path)
    {
      p := path;
      while p != "" && p[0] == SEP
        invariant SkipSeps(p) == SkipSeps(path)
        decreases |p|
      {
        p := p[1..];
      }
    }

    /** The walk down the tree; `lost` is a search that went astray. */
    method Descend(node: Place, path: Text) returns (below: Place, found: bool, lost: bool)
      requires InTree(root, node)
      modifies this`refs
      ensures var w := Walk(Sub(root, node), path);
              below == w.0 && found == w.1.Found? && lost == w.1.Astray?
      ensures refs == old(refs) + Chain(node, below)
    {
      hide Takes, Rest, InTree, Sub, Chain, Walk, Heads, Pick, RefOn;
      ghost var w := Walk(Sub(root, node), path);
      var p := path;
      below, lost, found := [], false, false;
      HeadsStart(Sub(root, node), p, node);
      while p != ""
        invariant InTree(root, node + below)
        invariant refs == old(refs) + Chain(node, below)
        invariant Heads(w, Sub(root, node + below), below, p)
        decreases Sub(root, node + below)
      {
        var here := Sub(root, node + below);
        var some, child := FindChild(node + below, p);
        HeadsEnd(w, here, below, p);
        if child.None? {
          return below, false, some;
        }
        SubStep(root, node + below, child.value);
        HeadsStep(w, here, node, below, p);
        AddRef(old(refs), Chain(node, below), RefOn(here, node + below, child.value));
        p := Rest(here.kids[child.value].name, p);
        below := below + [child.value];
      }
      HeadsEnd(w, Sub(root, node + below), below, p);
      found := true;
    }

    /** `vmm_devtree_getchild`. */
    method GetChild(node: Place, path: Text) returns (r: Option<Place>)
      requires InTree(root, node)
      modifies this`refs
      ensures var w := Walk(Sub(root, node), SkipSeps(path));
              && r == (if w.1.Found? then Some(node + w.0) else None)
              && refs == old(refs) + HeldAfter(node, w)
      ensures Plain(Sub(root, node)) ==>
        (refs == old(refs) + (if r.Some? then multiset{r.value} else multiset{})
         <==> !Strays(Sub(root, node), Split(SkipSeps(path))))
    {
      hide InTree, Sub, Chain, Walk, Plain, Strays, Split, HeldAfter, SkipSeps;
      FoundHeld(node, Sub(root, node), SkipSeps(path), old(refs));
      var p := SkipLeading(path);
      var below, found, lost := Descend(node, p);
      if lost {
        return None;
      }
      MoveRef(old(refs), Chain(node, below), if found then multiset{node + below} else multiset{});
      if found {
        refs := refs + multiset{node + below};
      }
      DropUp(node, below);
      r := if found then Some(node + below) else None;
    }

    /** `vmm_devtree_getnode`; without a path it is the root. */
    method GetNode(path: Option<Text>) returns (r: Option<Place>)
      modifies this`refs
      ensures path.None? ==> r == Some([]) && refs == old(refs) + multiset{[]}
      ensures path.Some? ==> r == NodeAt(root, path.value)
      ensures path.Some? && !Takes(root.name, path.value) ==> refs == old(refs)
      ensures path.Some? && Takes(root.name, path.value) ==>
        refs == old(refs) + HeldAfter([], Walk(root, SkipSeps(Rest(root.name, path.value))))
    {
      if path.None? {
        refs := refs + multiset{[]};
        return Some([]);
      }
      if !Takes(root.name, path.value) {
        return None;
      }
      r := GetChild([], Rest(root.name, path.value));
      ghost var w := Walk(root, SkipSeps(Rest(root.name, path.value)));
      assert [] + w.0 == w.0;
    }

    /** `vmm_devtree_addnode`; a new node takes a reference on its parent. */
    method AddNode(at: Place, name: Text) returns (r: Option<Place>)
      requires InTree(root, at) && |name| < VMM_FIELD_SHORT_NAME_SIZE
      modifies this
      ensures (root, r) == AddNodeSpec(old(root), at, name)
      ensures refs == old(refs) + if r.Some? then multiset{at, r.value} else multiset{}
    {
      hide InTree, Sub, RefOn, Insert;
      var t := Sub(root, at);
      var c := 0;
      refs := refs + RefOn(t, at, c);
      while c < |t.kids|
        invariant 0 <= c <= |t.kids| && root == old(root)
        invariant forall j :: 0 <= j < c ==> t.kids[j].name != name
        invariant refs == old(refs) + RefOn(t, at, c)
      {
        if t.kids[c].name == name {
          MoveRef(old(refs), RefOn(t, at, c), multiset{});
          refs := refs - RefOn(t, at, c);
          return None;
        }
        c := NextChild(at, c, old(refs));
      }
      NoRef(t, at, old(refs));
      refs := refs + multiset{at, at + [|t.kids|]};
      root := Insert(root, at, name);
      r := Some(at + [|t.kids|]);
    }
  }

  /** The search that ends in `w` has come down `below` to `t`, with `path` left. */
  predicate Heads(w: (Place, End), t: Tree, below: Place, path: Text) {
    var r := Walk(t, path);
    w == (below + r.0, r.1)
  }

  lemma HeadsStart(t: Tree, path: Text, node: Place)
    ensures Heads(Walk(t, path), t, [], path) && Chain(node, []) == multiset{} && node + [] == node
    ensures !(path != "" && path[0] == SEP) ==> SkipSeps(path) == path
  {
    assert [] + Walk(t, path).0 == Walk(t, path).0;
  }

  lemma HeadsStep(w: (Place, End), t: Tree, node: Place, below: Place, path: Text)
    requires path != "" && Pick(t.kids, path) < |t.kids| && Heads(w, t, below, path)
    ensures var k := Pick(t.kids, path);
            && Heads(w, t.kids[k], below + [k], Rest(t.kids[k].name, path))
            && Chain(node, below + [k]) == Chain(node, below) + RefOn(t, node + below, k)
            && node + (below + [k]) == node + below + [k]
  {
    var k := Pick(t.kids, path);
    assert (below + [k])[..|below|] == below;
    assert node + (below + [k]) == node + below + [k];
    var v := Walk(t.kids[k], Rest(t.kids[k].name, path)).0;
    assert below + ([k] + v) == (below + [k]) + v;
  }

  lemma HeadsEnd(w: (Place, End), t: Tree, below: Place, path: Text)
    requires Heads(w, t, below, path)
    ensures path == "" ==> w == (below, Found)
    ensures path != "" && Pick(t.kids, path) == |t.kids| ==>
      w == (below, if exists j :: 0 <= j < |t.kids| && t.kids[j].name <= path then Astray else Missing)
    ensures (exists j :: 0 <= j < |t.kids| && t.kids[j].name <= path) || Pick(t.kids, path) == |t.kids|
  {
    assert below + [] == below;
  }

  lemma TakesPrefix(name: Text, path: Text)
    ensures Takes(name, path) ==> name <= path
  {
  }

  lemma PickIs(kids: seq<Tree>, path: Text, k: nat)
    requires k <= |kids| && forall j :: 0 <= j < k ==> !Takes(kids[j].name, path)
    requires k < |kids| ==> Takes(kids[k].name, path)
    ensures Pick(kids, path) == k
  {
    hide Takes;
  }
}
