/** Translation tables: the entry encoders, the tables `mmu_init` builds, and a walk over them. */
module Mmu {
  import opened Machine

  datatype Granule = G4K | G16K | G64K

  // ---------------------------------------------------------------- encoding

  /** Output address bits of a block entry; `None` is the "Invalid entry requested" panic. */
  function BlockMask(g: Granule, level: nat): Option<bv64> {
    match g
    case G4K => if level == 1 then Some(0x3FFFF << 30) else if level == 2 then Some(0x7FF_FFFF << 21) else None
    case G16K => if level == 2 then Some(0x7F_FFFF << 25) else None
    case G64K => if level == 2 then Some(0x7_FFFF << 29) else None
  }

  /** `make_block` */
  function MakeBlock(addr: bv64, uba: bv64, lba: bv64, g: Granule, level: nat): Option<bv64> {
    match BlockMask(g, level)
    case None => None
    case Some(mask) => Some(1 | ((uba & 0xFFF) << 52) | ((lba & 0x3FF) << 2) | (addr & mask))
  }

  function TableMask(g: Granule): bv64 {
    match g
    case G4K => 0xF_FFFF_FFFF << 12
    case G16K => 0x3_FFFF_FFFF << 14
    case G64K => 0xFFFF_FFFF << 16
  }

  /** `make_table` */
  function MakeTable(next: bv64, flags: bv64, g: Granule): bv64 {
    3 | ((flags & 0x1F) << 59) | (next & TableMask(g))
  }

  /** The bits of an output address above the size of a block, up to bit 47, by page size and level. */
  function AddressBits(g: Granule, level: nat): Option<bv64> {
    if g == G4K && level == 1 then Some(0xFFFF_C000_0000)
    else if level != 2 then None
    else match g case G4K => Some(0xFFFF_FFE0_0000) case G16K => Some(0xFFFF_FE00_0000) case G64K => Some(0xFFFF_E000_0000)
  }

  /** Blocks exist at two levels with small pages and at one with larger ones; their entry takes just these bits of the address. */
  lemma BlockAddress(addr: bv64, uba: bv64, lba: bv64, g: Granule, level: nat)
    ensures BlockMask(g, level) == AddressBits(g, level)
    ensures MakeBlock(addr, uba, lba, g, level).Some? <==> AddressBits(g, level).Some?
  {
  }

  /** No field of a block entry disturbs another, whatever the arguments: each reads back as it was given. */
  lemma BlockFields(addr: bv64, uba: bv64, lba: bv64, g: Granule, level: nat)
    requires BlockMask(g, level).Some?
    ensures var e := MakeBlock(addr, uba, lba, g, level).value;
            && e & 3 == 1
            && e & BlockMask(g, level).value == addr & BlockMask(g, level).value
            && (e >> 52) & 0xFFF == uba & 0xFFF
            && (e >> 2) & 0x3FF == lba & 0x3FF
  {
  }

  /** A table entry holds the address bits above a page's size, up to bit 47. */
  lemma TableFields(next: bv64, flags: bv64, g: Granule)
    ensures var e := MakeTable(next, flags, g);
            var mask: bv64 := match g case G4K => 0xFFFF_FFFF_F000 case G16K => 0xFFFF_FFFF_C000 case G64K => 0xFFFF_FFFF_0000;
            e & 3 == 3 && e & 0x7FF_FFFF_FFFF_FFFC == next & mask && e >> 59 == flags & 0x1F
  {
  }

  // ---------------------------------------------------------------- the walk

  const TABLE_SIZE: nat := 512
  const GIB: nat := 0x4000_0000
  const HIGH_BASE: nat := 0xFFFF_FF00_0000_0000

  /** Translation tables in memory, by address. */
  type Memory = map<nat, seq<bv64>>

  /** Bytes one entry of a level covers with 4K pages. */
  function Span(level: nat): nat
    requires level <= 3
  {
    if level == 0 then 0x80_0000_0000 else if level == 1 then GIB else if level == 2 then 0x20_0000 else 0x1000
  }

  /** A 40-bit address leaves one bit for level 0 and nine for each level below. */
  function Index(level: nat, va: nat): (i: nat)
    requires level <= 3
    ensures i < TABLE_SIZE
  {
    va / Span(level) % (if level == 0 then 2 else 512)
  }

  /** Address bits of an entry, and the access flag. */
  function OutputMask(level: nat): bv64
    requires 1 <= level <= 3
  {
    if level == 1 then 0x3FFFF << 30 else if level == 2 then 0x7FF_FFFF << 21 else 0xF_FFFF_FFFF << 12
  }

  function Output(e: bv64, level: nat): nat
    requires 1 <= level <= 3
  {
    (e & OutputMask(level)) as int
  }

  function Accessed(e: bv64): bool {
    e & 0x400 != 0
  }

  /** The lookup from one level on; `None` is a fault. */
  function Lookup(mem: Memory, table: nat, level: nat, va: nat): Option<nat>
    requires level <= 3
    decreases 3 - level
  {
    if table !in mem || |mem[table]| != TABLE_SIZE then None
    else
      var e := mem[table][Index(level, va)];
      if e & 1 == 0 then None
      else if e & 3 == 3 && level < 3 then Lookup(mem, (e & (0xF_FFFF_FFFF << 12)) as int, level + 1, va)
      else if level == 0 || (level == 3 && e & 3 != 3) || !Accessed(e) then None
      else Some(Output(e, level) + va % Span(level))
  }

  /** Low addresses go through one root table, high ones through the other, the rest fault. */
  function Walk(mem: Memory, ttbr0: nat, ttbr1: nat, va: nat): Option<nat> {
    if va < 0x100_0000_0000 then Lookup(mem, ttbr0, 0, va)
    else if HIGH_BASE <= va then Lookup(mem, ttbr1, 0, va)
    else None
  }

  // ---------------------------------------------------------------- mmu_init

  const BLOCK_LOWER: bv64 := 0x113

  /** The entry of the `i`-th gigabyte. */
  function GigEntry(i: nat): bv64
    requires i < 4
  {
    var addr: bv64 := if i == 0 then 0 else if i == 1 then 0x4000_0000 else if i == 2 then 0x8000_0000 else 0xC000_0000;
    MakeBlock(addr, 0, BLOCK_LOWER, G4K, 1).value
  }

  /** A level-1 table mapping the first four gigabytes one to one. */
  ghost predicate MapsLow(t: seq<bv64>) {
    && |t| == TABLE_SIZE
    && (forall i | 0 <= i < 4 :: t[i] == GigEntry(i))
    && (forall i | 4 <= i < TABLE_SIZE :: t[i] == 0)
  }

  /** A level-0 table whose only entry points to `next`. */
  ghost predicate PointsTo(t: seq<bv64>, next: bv64) {
    && |t| == TABLE_SIZE && t[0] == MakeTable(next, 0, G4K)
    && (forall i | 1 <= i < TABLE_SIZE :: t[i] == 0)
  }

  lemma GigEntryDecodes(i: nat)
    requires i < 4
    ensures var e := GigEntry(i);
            e & 3 == 1 && e & 1 == 1 && Accessed(e) && Output(e, 1) == i * GIB
    ensures GigEntry(i) == (if i == 0 then 0x44D else if i == 1 then 0x4000_044D else if i == 2 then 0x8000_044D else 0xC000_044D)
  {
    assert GigEntry(0) & OutputMask(1) == 0;
    assert GigEntry(1) & OutputMask(1) == 0x4000_0000;
    assert GigEntry(2) & OutputMask(1) == 0x8000_0000;
    assert GigEntry(3) & OutputMask(1) == 0xC000_0000;
  }

  lemma RootEntry(leaf: bv64)
    requires leaf & 0xFFF == 0 && leaf >> 48 == 0
    ensures var e := MakeTable(leaf, 0, G4K); e & 3 == 3 && e & 1 == 1 && e & (0xF_FFFF_FFFF << 12) == leaf
  {
  }

  lemma LookupRoot(mem: Memory, root: nat, leaf: bv64, va: nat)
    requires root in mem && leaf & 0xFFF == 0 && leaf >> 48 == 0 && PointsTo(mem[root], leaf)
    ensures Lookup(mem, root, 0, va) == if Index(0, va) == 0 then Lookup(mem, leaf as int, 1, va) else None
  {
    hide MakeTable, Index, Accessed;
    RootEntry(leaf);
    assert (0 as bv64) & 1 == 0;
  }

  lemma LookupLeaf(mem: Memory, leaf: nat, level: nat, va: nat)
    requires level == 1 && leaf in mem && MapsLow(mem[leaf])
    ensures Lookup(mem, leaf, level, va) == if Index(1, va) < 4 then Some(Index(1, va) * GIB + va % GIB) else None
  {
    var i := Index(1, va);
    if i < 4 {
      GigEntryDecodes(i);
      LookupBlock(mem, leaf, level, va, GigEntry(i));
    } else {
      LookupInvalid(mem, leaf, level, va);
    }
  }

  lemma LookupBlock(mem: Memory, table: nat, level: nat, va: nat, e: bv64)
    requires level == 1 && table in mem && |mem[table]| == TABLE_SIZE && mem[table][Index(1, va)] == e
    requires e & 3 == 1 && e & 1 == 1 && Accessed(e)
    ensures Lookup(mem, table, level, va) == Some(Output(e, 1) + va % GIB)
  {
    hide Output, Accessed;
  }

  lemma LookupInvalid(mem: Memory, table: nat, level: nat, va: nat)
    requires level <= 3 && table in mem && |mem[table]| == TABLE_SIZE && mem[table][Index(level, va)] == 0
    ensures Lookup(mem, table, level, va) == None
  {
    assert (0 as bv64) & 1 == 0;
  }

  /** A lookup through a root and the table it points to is the identity below 4 GiB and faults above. */
  lemma LookupMaps(mem: Memory, root: nat, leaf: bv64, va: nat)
    requires root in mem && leaf as int in mem && leaf & 0xFFF == 0 && leaf >> 48 == 0
    requires PointsTo(mem[root], leaf) && MapsLow(mem[leaf as int])
    ensures Lookup(mem, root, 0, va) == if va % 0x100_0000_0000 < 4 * GIB then Some(va % 0x100_0000_0000) else None
  {
    LookupRoot(mem, root, leaf, va);
    LookupLeaf(mem, leaf as int, 1, va);
    hide PointsTo, MapsLow, Lookup;
    IndexSplit(va);
  }

  lemma IndexSplit(va: nat)
    ensures va % 0x100_0000_0000 == Index(0, va) * 512 * GIB + Index(1, va) * GIB + va % GIB
  {
    LowBits(va);
    HighBit(va, va / Span(0));
  }

  lemma HighBit(va: nat, high: nat)
    requires high == va / Span(0)
    ensures va % 0x100_0000_0000 == high % 2 * Span(0) + va % Span(0)
  {
    ModUnique(va, 2 * Span(0), high / 2, high % 2 * Span(0) + va % Span(0));
  }

  lemma ModUnique(a: nat, m: nat, k: nat, r: nat)
    requires m > 0 && a == m * k + r && r < m
    ensures a % m == r
  {
    var d: int := a / m - k;
    assert m * d == r - a % m;
    assert d > 0 ==> m * d >= m;
    assert d < 0 ==> m * d <= 0 - m;
  }

  lemma LowBits(va: nat)
    ensures va % Span(0) == Index(1, va) * GIB + va % GIB
  {
    var gigs := va / GIB;
    assert va == Span(0) * (gigs / 512) + gigs % 512 * GIB + va % GIB;
  }

  /** What the kernel is meant to see: the first 4 GiB as they are, and once more at the top. */
  function Intended(va: nat): Option<nat> {
    if va < 4 * GIB then Some(va)
    else if HIGH_BASE <= va < HIGH_BASE + 4 * GIB then Some(va - HIGH_BASE)
    else None
  }

  /** Every 64-bit virtual address is translated as intended. */
  lemma WalkMaps(mem: Memory, ttbr0: nat, ttbr1: nat, low: bv64, high: bv64, va: nat)
    requires va < 0x1_0000_0000_0000_0000
    requires ttbr0 in mem && ttbr1 in mem && low as int in mem && high as int in mem
    requires low & 0xFFF == 0 && low >> 48 == 0 && high & 0xFFF == 0 && high >> 48 == 0
    requires PointsTo(mem[ttbr0], low) && MapsLow(mem[low as int]) && PointsTo(mem[ttbr1], high) && MapsLow(mem[high as int])
    ensures Walk(mem, ttbr0, ttbr1, va) == Intended(va)
  {
    hide PointsTo, MapsLow, Lookup;
    if va < 0x100_0000_0000 {
      LookupMaps(mem, ttbr0, low, va);
    } else if HIGH_BASE <= va {
      LookupMaps(mem, ttbr1, high, va);
      assert va % 0x100_0000_0000 == va - HIGH_BASE;
    }
  }

  /** The four static tables, filled in place; the level-1 tables live at given addresses. */
  class Tables {
    const l0low: array<bv64>
    const l1low: array<bv64>
    const l0high: array<bv64>
    const l1high: array<bv64>
    const lowAddr: bv64
    const highAddr: bv64

    constructor (lowAddr: bv64, highAddr: bv64)
      ensures l0low.Length == l1low.Length == l0high.Length == l1high.Length == TABLE_SIZE
      ensures l0low != l1low && l0low != l0high && l0low != l1high && l1low != l0high && l1low != l1high && l0high != l1high
      ensures this.lowAddr == lowAddr && this.highAddr == highAddr
    {
      l0low := new bv64[TABLE_SIZE];
      l1low := new bv64[TABLE_SIZE];
      l0high := new bv64[TABLE_SIZE];
      l1high := new bv64[TABLE_SIZE];
      this.lowAddr, this.highAddr := lowAddr, highAddr;
    }

    /** Zeroes a table. */
    static method Clear(t: array<bv64>)
      modifies t
      ensures forall i | 0 <= i < t.Length :: t[i] == 0
    {
      for i := 0 to t.Length
        invariant forall j | 0 <= j < i :: t[j] == 0
      {
        t[i] := 0;
      }
    }

    /** The table-filling part of `mmu_init`. */
    method Init()
      requires l0low.Length == l1low.Length == l0high.Length == l1high.Length == TABLE_SIZE
      requires l0low != l1low && l0low != l0high && l0low != l1high && l1low != l0high && l1low != l1high && l0high != l1high
      modifies l0low, l1low, l0high, l1high
      ensures PointsTo(l0low[..], lowAddr) && MapsLow(l1low[..])
      ensures PointsTo(l0high[..], highAddr) && MapsLow(l1high[..])
    {
      Clear(l0low);
      Clear(l1low);
      Clear(l0high);
      Clear(l1high);
      l0low[0] := MakeTable(lowAddr, 0, G4K);
      l0high[0] := MakeTable(highAddr, 0, G4K);
      label Roots:
      var i, addr := 0, 0 as bv64;
      while i < 4
        invariant 0 <= i <= 4 && addr == (if i == 0 then 0 else if i == 1 then 0x4000_0000 else if i == 2 then 0x8000_0000
                                          else if i == 3 then 0xC000_0000 else 0x1_0000_0000)
        invariant forall j | 0 <= j < TABLE_SIZE :: l1low[j] == l1high[j] == if j < i then GigEntry(j) else 0
        invariant l0low[..] == old@Roots(l0low[..]) && l0high[..] == old@Roots(l0high[..])
      {
        l1low[i] := MakeBlock(addr, 0, BLOCK_LOWER, G4K, 1).value;
        l1high[i] := MakeBlock(addr, 0, BLOCK_LOWER, G4K, 1).value;
        addr := addr + 0x4000_0000;
        i := i + 1;
      }
    }

    /** Where the hardware sees the four tables, the roots at the addresses in the base registers. */
    ghost function InMemory(ttbr0: nat, ttbr1: nat): Memory
      reads l0low, l1low, l0high, l1high
    {
      map[ttbr0 := l0low[..], ttbr1 := l0high[..], lowAddr as int := l1low[..], highAddr as int := l1high[..]]
    }

    /** Fills the tables, so that a walk over them maps every address as intended. */
    method InitMaps(ghost ttbr0: nat, ghost ttbr1: nat)
      requires l0low.Length == l1low.Length == l0high.Length == l1high.Length == TABLE_SIZE
      requires l0low != l1low && l0low != l0high && l0low != l1high && l1low != l0high && l1low != l1high && l0high != l1high
      requires |{ttbr0, ttbr1, lowAddr as int, highAddr as int}| == 4
      requires lowAddr & 0xFFF == 0 && lowAddr >> 48 == 0 && highAddr & 0xFFF == 0 && highAddr >> 48 == 0
      modifies l0low, l1low, l0high, l1high
      ensures forall va: nat | va < 0x1_0000_0000_0000_0000 :: Walk(InMemory(ttbr0, ttbr1), ttbr0, ttbr1, va) == Intended(va)
    {
      Init();
      hide PointsTo, MapsLow, Walk, Intended;
      ghost var mem := InMemory(ttbr0, ttbr1);
      assert mem[ttbr0] == l0low[..] && mem[ttbr1] == l0high[..] && mem[lowAddr as int] == l1low[..] && mem[highAddr as int] == l1high[..];
      forall va: nat | va < 0x1_0000_0000_0000_0000
        ensures Walk(mem, ttbr0, ttbr1, va) == Intended(va)
      {
        WalkMaps(mem, ttbr0, ttbr1, lowAddr, highAddr, va);
      }
    }
  }
}
