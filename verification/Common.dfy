/** Shared result values: the return codes of `core/include/vmm_error.h` that
    the modelled operations produce, and an optional value for C pointers. */
module Common {
  datatype Option<+T> = None | Some(value: T)

  const VMM_OK := 0
  const VMM_EFAIL := -1
  const VMM_ENOTAVAIL := -3
  const VMM_EINVALID := -5
  const VMM_ENOMEM := -7
  const VMM_ENODEV := -8
  const VMM_EBUSY := -9
  const VMM_EEXIST := -10
  const VMM_ETIMEDOUT := -11
  const VMM_ENOSPC := -21

  type Byte = b: int | 0 <= b < 256

  /** Where a `u32` wraps. */
  const U32_RANGE: nat := 0x1_0000_0000

  /** The addresses `[lo, lo + len)`. */
  function Range(lo: nat, len: nat): (s: set<nat>)
    ensures forall a: nat :: a in s <==> lo <= a < lo + len
    decreases len
  {
    if len == 0 then {} else Range(lo, len - 1) + {lo + len - 1}
  }

  /** An address translation: target address and attributes for each address. */
  type Translation = map<nat, (nat, nat)>

  /** `[from, from + size)` translated to `[to, to + size)`. */
  function Span(from: nat, to: nat, size: nat, attr: nat): (t: Translation) {
    map a | a in Range(from, size) :: (to + (a - from), attr)
  }

  lemma SpanEmpty(from: nat, to: nat, attr: nat)
    ensures Span(from, to, 0, attr) == map[]
  {
  }

  lemma SpanExtends(t: Translation, from: nat, to: nat, a: nat, b: nat, attr: nat)
    ensures t + Span(from, to, a, attr) + Span(from + a, to + a, b, attr)
         == t + Span(from, to, a + b, attr)
  {
  }

  // ----- lists -----

  /** The list without the first `id`. */
  function Without(list: seq<nat>, id: nat): (r: seq<nat>)
    ensures forall x :: x in r ==> x in list
    ensures forall x :: x in list && x != id ==> x in r
  {
    if list == [] then []
    else if list[0] == id then list[1..]
    else [list[0]] + Without(list[1..], id)
  }

  // ----- memory -----

  /** `data` written over `mem` at `h`. */
  function Spliced(mem: seq<Byte>, h: nat, data: seq<Byte>): (r: seq<Byte>)
    requires h + |data| <= |mem|
    ensures |r| == |mem|
  {
    mem[..h] + data + mem[h + |data|..]
  }

  /** `memcpy`. */
  method CopyBytes(cells: array<Byte>, at: nat, data: seq<Byte>)
    requires at + |data| <= cells.Length
    modifies cells
    ensures cells[..] == Spliced(old(cells[..]), at, data)
  {
    var i := 0;
    while i < |data|
      invariant 0 <= i <= |data|
      invariant cells[..at + i] == old(cells[..at]) + data[..i]
      invariant cells[at + i..] == old(cells[at + i..])
    {
      cells[at + i] := data[i];
      i := i + 1;
    }
    assert cells[..] == cells[..at + |data|] + cells[at + |data|..];
  }
}
