/** The 64-bit value of a page-table entry: which of a node's fields can be read back from it, and when the page size cannot. */
module EntryBits {
  const PRESENT: bv64 := 0x1
  const WRITABLE: bv64 := 0x2
  const INTERMEDIATE_PAGE: bv64 := 0x40
  const LARGE_PAGE: bv64 := 0x80
  const PS64: bv64 := 0x100
  const ATOMIC_ENABLE: bv64 := 0x400
  const LEGACY_INTERMEDIATE_PAGE: bv64 := 0x800
  const LOCAL_MEMORY: bv64 := 0x800

  /** Frame addresses: 4KB-aligned, below bit 52. */
  const ADDRESS_MASK: bv64 := 0x000f_ffff_ffff_f000

  /** Bits a leaf entry uses itself. */
  const OWN_BITS: bv64 := ADDRESS_MASK | 0x983

  /** getEntryValue of a leaf page; 2MB pages carry no PS64 bit. */
  function LeafValue(addr: bv64, local: bool, ps64: bool, large: bool, extra: bv64): bv64 {
    addr | PRESENT | WRITABLE
    | (if large then LARGE_PAGE else 0) | (if local then LOCAL_MEMORY else 0) | (if ps64 && !large then PS64 else 0) | extra
  }

  /** getEntryValue of a table. */
  function TableValue(addr: bv64, pte64KB: bool, legacy: bool): bv64 {
    addr | PRESENT | WRITABLE | (if !pte64KB then 0 else if legacy then LEGACY_INTERMEDIATE_PAGE else INTERMEDIATE_PAGE)
  }

  predicate Has(v: bv64, bit: bv64) {
    v & bit != 0
  }

  predicate IsAddress(addr: bv64) {
    addr & ADDRESS_MASK == addr
  }

  // ---- the bits a GPU adds ----

  datatype Family = Gen12lp | Dg2 | Mtl | XeHpc | Xe2Hpg | Xe3 | Xe3p(appTransient: bool)

  const PAT_BIT_0: bv64 := 0x8
  const PAT_BIT_1: bv64 := 0x10
  const PAT_BIT_2: bv64 := 0x80
  const PAT_BIT_3: bv64 := 0x4000_0000_0000_0000
  const PAT_BIT_4: bv64 := 0x2000_0000_0000_0000

  /** The page attribute index of a family with compression. */
  function PatIndex(uncached: bool, compressed: bool, otherwise: bv64): bv64 {
    if uncached then if compressed then PAT_BIT_3 | PAT_BIT_2 else PAT_BIT_1 | PAT_BIT_0
    else if compressed then PAT_BIT_3 | PAT_BIT_0
    else otherwise
  }

  /** getPPGTTExtraEntryBits */
  function ExtraBits(family: Family, uncached: bool, compressed: bool): bv64 {
    match family
    case Gen12lp => 0
    case Dg2 => ATOMIC_ENABLE
    case Mtl => ATOMIC_ENABLE | (if uncached then PAT_BIT_1 else 0)
    case XeHpc => ATOMIC_ENABLE | (if uncached then 0 else PAT_BIT_0 | PAT_BIT_1)
    case Xe2Hpg => ATOMIC_ENABLE | PatIndex(uncached, compressed, 0)
    case Xe3 => ATOMIC_ENABLE | PatIndex(uncached, compressed, 0)
    case Xe3p(appTransient) => ATOMIC_ENABLE | PatIndex(uncached, compressed, if appTransient then PAT_BIT_4 | PAT_BIT_1 else 0)
  }

  /** Extra bits stay out of the address and the PS64 bit; nothing keeps them out of the rest. */
  predicate IsExtra(extra: bv64) {
    extra & (ADDRESS_MASK | PS64) == 0
  }

  lemma ExtraMissesAddress(family: Family, uncached: bool, compressed: bool)
    ensures IsExtra(ExtraBits(family, uncached, compressed))
  {
    match family {
      case Xe2Hpg => if uncached { if compressed {} } else { if compressed {} }
      case Xe3 => if uncached { if compressed {} } else { if compressed {} }
      case Xe3p(transient) => if uncached { if compressed {} } else { if compressed {} else if transient {} }
      case _ =>
    }
  }

  lemma ExtraMissesLocal(family: Family, uncached: bool, compressed: bool)
    ensures !Has(ExtraBits(family, uncached, compressed), LOCAL_MEMORY)
  {
    match family {
      case Xe2Hpg => if uncached { if compressed {} } else { if compressed {} }
      case Xe3 => if uncached { if compressed {} } else { if compressed {} }
      case Xe3p(transient) => if uncached { if compressed {} } else { if compressed {} else if transient {} }
      case _ =>
    }
  }

  lemma ExtraMeetsLarge(family: Family, uncached: bool, compressed: bool)
    ensures Has(ExtraBits(family, uncached, compressed), LARGE_PAGE) <==> uncached && compressed && (family.Xe2Hpg? || family.Xe3? || family.Xe3p?)
  {
    match family {
      case Xe2Hpg => if uncached { if compressed {} } else { if compressed {} }
      case Xe3 => if uncached { if compressed {} } else { if compressed {} }
      case Xe3p(transient) => if uncached { if compressed {} } else { if compressed {} else if transient {} }
      case _ =>
    }
  }

  /** Every GPU's extra bits are such, and none is the local-memory bit; the large-page bit is one exactly for uncached compressed
      pages of the families whose attribute index has a third bit. */
  lemma ExtraBitsFit(family: Family, uncached: bool, compressed: bool)
    ensures var extra := ExtraBits(family, uncached, compressed);
      && IsExtra(extra) && !Has(extra, LOCAL_MEMORY)
      && (Has(extra, LARGE_PAGE) <==> uncached && compressed && (family.Xe2Hpg? || family.Xe3? || family.Xe3p?))
  {
    hide ExtraBits, IsExtra, Has;
    ExtraMissesAddress(family, uncached, compressed);
    ExtraMissesLocal(family, uncached, compressed);
    ExtraMeetsLarge(family, uncached, compressed);
  }

  // ---- reading an entry back ----

  /** The fields of a leaf entry side by side. */
  function Fields(addr: bv64, flags: bv64, extra: bv64): bv64 {
    addr | PRESENT | WRITABLE | flags | extra
  }

  lemma FieldsApart(addr: bv64, flags: bv64, extra: bv64)
    requires IsAddress(addr) && IsExtra(extra) && flags & 0x980 == flags
    ensures var v := Fields(addr, flags, extra);
      && v & ADDRESS_MASK == addr && Has(v, PRESENT) && Has(v, WRITABLE) && (Has(v, PS64) <==> Has(flags, PS64))
      && v & !OWN_BITS == extra & !OWN_BITS
  {
  }

  lemma FlagsApart(addr: bv64, flags: bv64, extra: bv64)
    requires IsAddress(addr)
    ensures var v := Fields(addr, flags, extra);
      && (Has(v, LOCAL_MEMORY) <==> Has(flags, LOCAL_MEMORY) || Has(extra, LOCAL_MEMORY))
      && (Has(v, LARGE_PAGE) <==> Has(flags, LARGE_PAGE) || Has(extra, LARGE_PAGE))
  {
  }

  function LeafFlags(local: bool, ps64: bool, large: bool): (flags: bv64)
    ensures flags & 0x980 == flags
    ensures (Has(flags, LOCAL_MEMORY) <==> local) && (Has(flags, PS64) <==> ps64) && (Has(flags, LARGE_PAGE) <==> large)
  {
    match (local, ps64, large)
    case (false, false, false) => 0
    case (false, false, true) => 0x80
    case (false, true, false) => 0x100
    case (false, true, true) => 0x180
    case (true, false, false) => 0x800
    case (true, false, true) => 0x880
    case (true, true, false) => 0x900
    case (true, true, true) => 0x980
  }

  lemma FlagsCollect(addr: bv64, local: bool, ps64: bool, large: bool, extra: bv64)
    ensures LeafValue(addr, local, ps64, large, extra) == Fields(addr, LeafFlags(local, ps64 && !large, large), extra)
  {
    if local { if ps64 { if large {} } else { if large {} } } else { if ps64 { if large {} } else { if large {} } }
  }

  /** A leaf's address, its PS64 mark and the GPU's other bits can always be read back from its value; that it is local, and that it
      is large, unless an extra bit says so first. */
  lemma LeafValueReads(addr: bv64, local: bool, ps64: bool, large: bool, extra: bv64)
    requires IsAddress(addr) && IsExtra(extra)
    ensures var v := LeafValue(addr, local, ps64, large, extra);
      && v & ADDRESS_MASK == addr && Has(v, PRESENT) && Has(v, WRITABLE)
      && (Has(v, PS64) <==> ps64 && !large) && v & !OWN_BITS == extra & !OWN_BITS
      && (Has(v, LOCAL_MEMORY) <==> local || Has(extra, LOCAL_MEMORY))
      && (Has(v, LARGE_PAGE) <==> large || Has(extra, LARGE_PAGE))
  {
    hide LeafValue, LeafFlags, IsAddress, IsExtra, Fields, Has;
    var flags := LeafFlags(local, ps64 && !large, large);
    FlagsCollect(addr, local, ps64, large, extra);
    FieldsApart(addr, flags, extra);
    FlagsApart(addr, flags, extra);
  }

  /** The page size can be read back from leaves with these extra bits if and only if the large-page bit is not one of them. */
  lemma PageSizeReadsExactly(extra: bv64)
    requires IsExtra(extra)
    ensures (forall addr, local, ps64, large :: IsAddress(addr) ==> (Has(LeafValue(addr, local, ps64, large, extra), LARGE_PAGE) <==> large))
            <==> !Has(extra, LARGE_PAGE)
  {
    hide LeafValue, IsExtra, IsAddress, Has;
    forall addr, local, ps64, large | IsAddress(addr)
      ensures Has(LeafValue(addr, local, ps64, large, extra), LARGE_PAGE) <==> large || Has(extra, LARGE_PAGE) {
      LeafValueReads(addr, local, ps64, large, extra);
    }
    ZeroIsAddress();
    assert Has(LeafValue(0, false, false, false, extra), LARGE_PAGE) <==> Has(extra, LARGE_PAGE);
  }

  lemma ZeroIsAddress()
    ensures IsAddress(0)
  {
  }

  /** An uncached compressed 4KB leaf and a 2MB leaf at one address have one value, as on Xe3. */
  lemma SmallLooksLarge(family: Family, addr: bv64, local: bool)
    requires family.Xe2Hpg? || family.Xe3? || family.Xe3p?
    ensures var extra := ExtraBits(family, true, true);
      LeafValue(addr, local, false, false, extra) == LeafValue(addr, local, false, true, extra)
  {
    if local {}
  }

  /** Two leaves of one GPU with the same entry value have the same address, memory kind and mark, and the same size unless they
      are uncached and compressed. */
  lemma LeafValueInjective(family: Family, ux: bool, cx: bool, a: bv64, la: bool, pa: bool, ga: bool, uy: bool, cy: bool, b: bv64, lb: bool, pb: bool, gb: bool)
    requires IsAddress(a) && IsAddress(b)
    requires LeafValue(a, la, pa, ga, ExtraBits(family, ux, cx)) == LeafValue(b, lb, pb, gb, ExtraBits(family, uy, cy))
    ensures a == b && la == lb && (pa && !ga) == (pb && !gb)
    ensures family.Xe2Hpg? || family.Xe3? || family.Xe3p? ==> ux == uy && cx == cy
    ensures ga == gb || (ux && cx && (family.Xe2Hpg? || family.Xe3? || family.Xe3p?))
  {
    hide LeafValue, IsExtra, IsAddress, Has, ExtraBits;
    ExtraBitsFit(family, ux, cx);
    ExtraBitsFit(family, uy, cy);
    LeafValueReads(a, la, pa, ga, ExtraBits(family, ux, cx));
    LeafValueReads(b, lb, pb, gb, ExtraBits(family, uy, cy));
    AttributesRead(family, ux, cx, uy, cy);
  }

  /** Where compression can be asked for, the attributes can be read back without the large-page bit. */
  lemma AttributesRead(family: Family, ux: bool, cx: bool, uy: bool, cy: bool)
    requires ExtraBits(family, ux, cx) & !OWN_BITS == ExtraBits(family, uy, cy) & !OWN_BITS
    ensures family.Xe2Hpg? || family.Xe3? || family.Xe3p? ==> ux == uy && cx == cy
  {
    hide PatIndex;
    if family.Xe2Hpg? || family.Xe3? {
      PatIndexReads(ux, cx, uy, cy, 0);
    } else if family.Xe3p? {
      PatIndexReads(ux, cx, uy, cy, if family.appTransient then PAT_BIT_4 | PAT_BIT_1 else 0);
    }
  }

  lemma PatIndexReads(ux: bool, cx: bool, uy: bool, cy: bool, otherwise: bv64)
    requires otherwise == 0 || otherwise == PAT_BIT_4 | PAT_BIT_1
    requires (ATOMIC_ENABLE | PatIndex(ux, cx, otherwise)) & !OWN_BITS == (ATOMIC_ENABLE | PatIndex(uy, cy, otherwise)) & !OWN_BITS
    ensures ux == uy && cx == cy
  {
    if otherwise == 0 {
      if ux { if cx {} } else { if cx {} }
      if uy { if cy {} } else { if cy {} }
    } else {
      if ux { if cx {} } else { if cx {} }
      if uy { if cy {} } else { if cy {} }
    }
  }

  lemma TableValueReads(addr: bv64, pte64KB: bool, legacy: bool)
    requires IsAddress(addr)
    ensures var v := TableValue(addr, pte64KB, legacy);
      && v & ADDRESS_MASK == addr && Has(v, PRESENT) && Has(v, WRITABLE) && !Has(v, LARGE_PAGE)
      && (Has(v, if legacy then LEGACY_INTERMEDIATE_PAGE else INTERMEDIATE_PAGE) <==> pte64KB)
  {
  }

  /** In a PDE slot, where only tables and 2MB pages stand, the large-page bit always tells which it is. */
  lemma PdeSlotReads(addr: bv64, local: bool, extra: bv64, table: bv64, pte64KB: bool, legacy: bool)
    requires IsAddress(addr) && IsExtra(extra) && IsAddress(table)
    ensures Has(LeafValue(addr, local, false, true, extra), LARGE_PAGE) && !Has(TableValue(table, pte64KB, legacy), LARGE_PAGE)
    ensures LeafValue(addr, local, false, true, extra) != TableValue(table, pte64KB, legacy)
  {
    hide LeafValue, TableValue, IsAddress, IsExtra, Has;
    LeafValueReads(addr, local, false, true, extra);
    TableValueReads(table, pte64KB, legacy);
  }

  lemma ExclusiveOrRemoves(addr: bv64, flags: bv64, extra: bv64)
    requires IsAddress(addr) && IsExtra(extra) && flags & 0x980 == flags
    ensures (Fields(addr, flags, extra) ^ addr) & !PS64 == Fields(0, flags & 0x880, extra)
  {
  }

  lemma MarkMasked(local: bool, ps64: bool)
    ensures LeafFlags(local, ps64, false) & 0x880 == LeafFlags(local, false, false)
  {
  }

  /** ps64EntryFlags: the value with its address and PS64 bit taken out is the entry of the same leaf unmarked at address 0. */
  lemma FlagsByExclusiveOr(addr: bv64, local: bool, ps64: bool, extra: bv64)
    requires IsAddress(addr) && IsExtra(extra)
    ensures (LeafValue(addr, local, ps64, false, extra) ^ addr) & !PS64 == LeafValue(0, local, false, false, extra)
  {
    hide LeafValue, IsAddress, IsExtra, LeafFlags, Fields;
    FlagsCollect(addr, local, ps64, false, extra);
    FlagsCollect(0, local, false, false, extra);
    ExclusiveOrRemoves(addr, LeafFlags(local, ps64, false), extra);
    MarkMasked(local, ps64);
  }

  lemma ExtraBitsSplit(family: Family, uncached: bool, compressed: bool)
    ensures var extra := ExtraBits(family, uncached, compressed); extra == (extra & !OWN_BITS) | (if Has(extra, LARGE_PAGE) then LARGE_PAGE else 0)
  {
    match family {
      case Xe2Hpg => if uncached { if compressed {} } else { if compressed {} }
      case Xe3 => if uncached { if compressed {} } else { if compressed {} }
      case Xe3p(transient) => if uncached { if compressed {} } else { if compressed {} else if transient {} }
      case _ =>
    }
  }

  /** Comparing the flags of two 4KB leaves of a GPU, as the group test does, compares their memory kind and their extra bits. */
  lemma FlagsCompareExactly(family: Family, ux: bool, cx: bool, lx: bool, uy: bool, cy: bool, ly: bool)
    ensures var x, y := ExtraBits(family, ux, cx), ExtraBits(family, uy, cy);
      LeafValue(0, lx, false, false, x) == LeafValue(0, ly, false, false, y) <==> lx == ly && x == y
  {
    hide LeafValue, IsExtra, IsAddress, Has, ExtraBits;
    ExtraBitsFit(family, ux, cx);
    ExtraBitsFit(family, uy, cy);
    ZeroIsAddress();
    LeafValueReads(0, lx, false, false, ExtraBits(family, ux, cx));
    LeafValueReads(0, ly, false, false, ExtraBits(family, uy, cy));
    ExtraBitsSplit(family, ux, cx);
    ExtraBitsSplit(family, uy, cy);
  }

  /** A cleared entry is no entry at all. */
  lemma ClearedIsAbsent(addr: bv64, local: bool, ps64: bool, large: bool, extra: bv64)
    ensures LeafValue(addr, local, ps64, large, extra) != 0
  {
  }
}
