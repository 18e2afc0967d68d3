/**
  Memory-mapped PCI configuration space: little-endian fields of a byte memory, written with
  the Preserve rule (section 19.6 of the ACPI Specification 6.4), and the ECAM addresses that
  the `MMIO` method computes (section 7.2.2 of the PCI Express Base Specification).
 */
module ConfigSpace {
  import opened Common

  type Byte = x: int | 0 <= x < 256

  function Pow256(w: nat): nat {
    if w == 0 then 1 else 256 * Pow256(w - 1)
  }

  // ---------------------------------------------------------------- little-endian values

  function FromBytes(bs: seq<Byte>): nat {
    if bs == [] then 0 else bs[0] + 256 * FromBytes(bs[1..])
  }

  function ToBytes(v: nat, w: nat): (bs: seq<Byte>)
    ensures |bs| == w
  {
    if w == 0 then [] else [v % 256] + ToBytes(v / 256, w - 1)
  }

  /** The low byte comes first. */
  lemma FourBytes(b0: Byte, b1: Byte, b2: Byte, b3: Byte)
    ensures FromBytes([b0, b1, b2, b3]) ==
            b0 as nat + 0x100 * (b1 as nat) + 0x1_0000 * (b2 as nat) + 0x100_0000 * (b3 as nat)
  {
    assert [b0, b1, b2, b3][1..] == [b1, b2, b3] && [b1, b2, b3][1..] == [b2, b3] && [b2, b3][1..] == [b3];
    assert [b3][1..] == [];
    assert FromBytes([b3]) == b3 && FromBytes([b2, b3]) == b2 as nat + 256 * FromBytes([b3]);
  }

  lemma {:induction false} FromToBytes(v: nat, w: nat)
    requires v < Pow256(w)
    ensures FromBytes(ToBytes(v, w)) == v
  {
    if w > 0 {
      FromToBytes(v / 256, w - 1);
      assert ToBytes(v, w)[1..] == ToBytes(v / 256, w - 1);
    }
  }

  lemma {:induction false} FromBytesFits(bs: seq<Byte>)
    ensures FromBytes(bs) < Pow256(|bs|)
  {
    if bs != [] { FromBytesFits(bs[1..]); }
  }

  // ---------------------------------------------------------------- fields

  /** What stands in `mem` from `a` on replaced by `bs`. */
  function Splice<T>(mem: seq<T>, a: nat, bs: seq<T>): (mem': seq<T>)
    requires a + |bs| <= |mem|
    ensures |mem'| == |mem|
  {
    mem[..a] + bs + mem[a + |bs|..]
  }

  type Dword = bs: seq<Byte> | |bs| == 4 witness [0, 0, 0, 0]

  /**
    A field store under DWordAcc and Preserve: read the whole dword, replace the field, write the
    dword. `seen` is what the read returns; a field of four bytes is stored without it.
   */
  function PreserveStore(mem: seq<Byte>, a: nat, bs: seq<Byte>, seen: Dword): (mem': seq<Byte>)
    requires a % 4 + |bs| <= 4 && a - a % 4 + 4 <= |mem|
    ensures |mem'| == |mem|
  {
    Splice(mem, a - a % 4, Splice(seen, a % 4, bs))
  }

  /** The dword that holds the byte at `a`. */
  function DwordOf(mem: seq<Byte>, a: nat): Dword
    requires a - a % 4 + 4 <= |mem|
  {
    mem[a - a % 4..a - a % 4 + 4]
  }

  /** If the read told the truth, the store changes the bytes of the field and no other. */
  lemma PreserveStoreIsSplice(mem: seq<Byte>, a: nat, bs: seq<Byte>, seen: Dword)
    requires a % 4 + |bs| <= 4 && a - a % 4 + 4 <= |mem|
    requires seen == DwordOf(mem, a) || |bs| == 4
    ensures PreserveStore(mem, a, bs, seen) == Splice(mem, a, bs)
  {
    var q, r := a - a % 4, a % 4;
    if seen == mem[q..q + 4] {
      assert Splice(seen, r, bs) == mem[q..q + r] + bs + mem[q + r + |bs|..q + 4];
      assert mem[..a] == mem[..q] + mem[q..a];
      assert mem[a + |bs|..] == mem[a + |bs|..q + 4] + mem[q + 4..];
    } else {
      assert Splice(seen, r, bs) == bs;
    }
  }

  /** In any case it changes the dword only, and outside the field to what the read told. */
  lemma PreserveStoreBytes(mem: seq<Byte>, a: nat, bs: seq<Byte>, seen: Dword, b: nat)
    requires a % 4 + |bs| <= 4 && a - a % 4 + 4 <= |mem| && b < |mem|
    ensures PreserveStore(mem, a, bs, seen)[b] ==
            if a <= b < a + |bs| then bs[b - a]
            else if a - a % 4 <= b < a - a % 4 + 4 then seen[b - (a - a % 4)]
            else mem[b]
  {
  }

  // ---------------------------------------------------------------- MMIO

  /** The base address of a function's configuration space. */
  function MMIO(gpcb: nat, bus: nat, device: nat, fn: nat): nat {
    gpcb + bus * 0x10_0000 + device * 0x8000 + fn * 0x1000
  }

  /** The fields of an ECAM address: 12 bits of offset, 3 of function, 5 of device, then the bus. */
  lemma MMIODecodes(gpcb: nat, bus: nat, device: nat, fn: nat)
    requires device < 32 && fn < 8
    ensures var offset := MMIO(gpcb, bus, device, fn) - gpcb;
            && offset % 0x1000 == 0 && offset / 0x1000 % 8 == fn
            && offset / 0x8000 % 32 == device && offset / 0x10_0000 == bus
  {
    var offset := MMIO(gpcb, bus, device, fn) - gpcb;
    DivModUnique(offset, 0x1000, 0x100 * bus + 8 * device + fn, 0);
    DivModUnique(0x100 * bus + 8 * device + fn, 8, 32 * bus + device, fn);
    DivModUnique(offset, 0x8000, 32 * bus + device, 0x1000 * fn);
    DivModUnique(32 * bus + device, 32, bus, device);
    DivModUnique(offset, 0x10_0000, bus, 0x8000 * device + 0x1000 * fn);
  }

  /** The window of a function is 4 KiB; two windows overlap only if they belong to the same function. */
  lemma MMIOWindowsAreDisjoint(gpcb: nat, b: nat, d: nat, f: nat, b': nat, d': nat, f': nat, x: nat, x': nat)
    requires d < 32 && f < 8 && d' < 32 && f' < 8 && x < 0x1000 && x' < 0x1000
    requires MMIO(gpcb, b, d, f) + x == MMIO(gpcb, b', d', f') + x'
    ensures b == b' && d == d' && f == f' && x == x'
  {
  }
}
