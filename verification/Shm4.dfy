/** Physical pages backed by host memory: the translation tables, and reads and writes that go through them. */
module Shm4 {
  import opened Wrappers
  import opened Arithmetic
  import opened FrameAllocator
  import opened PhysicalMemory
  import opened WalkLookup
  import opened EndToEnd

  /** Page number to host address; a page that is not mapped has no entry (a null pointer in the program). */
  type HostTable = map<nat, nat>

  /** Where a physical byte lives in host memory. */
  function HostOf(t: HostTable, addr: nat): (r: Option<nat>) {
    if addr / PAGE_4KB in t then Some(t[addr / PAGE_4KB] + addr % PAGE_4KB) else None
  }

  // ---- mapping ----

  function MapPages(t: HostTable, page: nat, count: nat, p: nat): HostTable
    decreases count
  {
    if count == 0 then t else MapPages(t[page := p], page + 1, count - 1, p + PAGE_4KB)
  }

  lemma {:induction false} MapPagesAt(t: HostTable, page: nat, count: nat, p: nat, n: nat)
    ensures var r := MapPages(t, page, count, p);
      if page <= n < page + count then n in r && r[n] == p + (n - page) * PAGE_4KB
      else (n in r <==> n in t) && (n in t ==> r[n] == t[n])
    decreases count
  {
    if count > 0 { MapPagesAt(t[page := p], page + 1, count - 1, p + PAGE_4KB, n); }
  }

  /** Every byte of a mapped range lives at its offset from p, and bytes outside keep their place. */
  lemma MapPagesMoves(t: HostTable, phys: nat, size: nat, p: nat, addr: nat)
    requires phys % PAGE_4KB == 0 && size % PAGE_4KB == 0
    ensures HostOf(MapPages(t, phys / PAGE_4KB, size / PAGE_4KB, p), addr) ==
            if phys <= addr < phys + size then Some(p + (addr - phys)) else HostOf(t, addr)
  {
    MapPagesAt(t, phys / PAGE_4KB, size / PAGE_4KB, p, addr / PAGE_4KB);
    PageOfByte(phys, size, addr);
  }

  lemma PageOfByte(phys: nat, size: nat, addr: nat)
    requires phys % PAGE_4KB == 0 && size % PAGE_4KB == 0
    ensures phys <= addr < phys + size <==> phys / PAGE_4KB <= addr / PAGE_4KB < phys / PAGE_4KB + size / PAGE_4KB
    ensures phys <= addr ==> (addr / PAGE_4KB - phys / PAGE_4KB) * PAGE_4KB + addr % PAGE_4KB == addr - phys
  {
  }

  // ---- translating ----

  /** Host bytes base.. back the n physical bytes from addr. */
  ghost predicate Backs(t: HostTable, addr: nat, n: nat, base: nat) {
    forall x: nat :: addr <= x < addr + n ==> HostOf(t, x) == Some(base + (x - addr))
  }

  /** What a translation promises: host bytes p.. back the physical bytes, as far as they go without a jump. */
  ghost predicate Translates(t: HostTable, addr: nat, size: nat, p: nat, available: nat) {
    && (available == 0 <==> HostOf(t, addr) == None)
    && Backs(t, addr, available, p)
    && (0 < available < size ==> HostOf(t, addr + available) != Some(p + available))
    && (available > 0 ==> available >= PAGE_4KB - addr % PAGE_4KB)
  }

  /** Sound and maximal translations of a range backed contiguously cover all of it. */
  lemma BackedTranslatesInFull(t: HostTable, addr: nat, size: nat, base: nat, p: nat, available: nat)
    requires Translates(t, addr, size, p, available) && size > 0
    requires Backs(t, addr, size, base)
    ensures p == base && available >= size
  {
    hide HostOf;
    assert HostOf(t, addr) == Some(base);
  }

  /** A request to back `size` bytes from `phys` by host memory at `p`. */
  datatype Mapping = Mapping(phys: nat, size: nat, p: nat)

  predicate WholePages(m: Mapping) {
    m.phys % PAGE_4KB == 0 && m.size % PAGE_4KB == 0
  }

  function MapEach(t: HostTable, list: seq<Mapping>): HostTable
    decreases |list|
  {
    if list == [] then t else MapEach(MapPages(t, list[0].phys / PAGE_4KB, list[0].size / PAGE_4KB, list[0].p), list[1..])
  }

  lemma {:induction false} OtherMappingsKeep(t: HostTable, list: seq<Mapping>, x: nat)
    requires forall m :: m in list ==> WholePages(m) && !(m.phys <= x < m.phys + m.size)
    ensures HostOf(MapEach(t, list), x) == HostOf(t, x)
    decreases |list|
  {
    hide HostOf, MapPages;
    if list != [] {
      assert list[0] in list;
      MapPagesMoves(t, list[0].phys, list[0].size, list[0].p, x);
      OtherMappingsKeep(MapPages(t, list[0].phys / PAGE_4KB, list[0].size / PAGE_4KB, list[0].p), list[1..], x);
    }
  }

  /** After a range is mapped, and any number of ranges that miss this part of it, the part translates in full, to its own bytes. */
  lemma MappedRangeTranslates(t: HostTable, first: Mapping, later: seq<Mapping>, at: nat, length: nat, q: nat, available: nat)
    requires WholePages(first) && first.phys <= at && at + length <= first.phys + first.size && length > 0
    requires forall m :: m in later ==> WholePages(m) && (m.phys + m.size <= at || at + length <= m.phys)
    requires Translates(MapEach(t, [first] + later), at, length, q, available)
    ensures q == first.p + (at - first.phys) && available >= length
  {
    hide HostOf, MapPages;
    var t1 := MapPages(t, first.phys / PAGE_4KB, first.size / PAGE_4KB, first.p);
    assert ([first] + later)[1..] == later;
    forall x: nat | at <= x < at + length ensures HostOf(MapEach(t, [first] + later), x) == Some(first.p + (at - first.phys) + (x - at)) {
      OtherMappingsKeep(t1, later, x);
      MapPagesMoves(t, first.phys, first.size, first.p, x);
    }
    BackedTranslatesInFull(MapEach(t, [first] + later), at, length, first.p + (at - first.phys), q, available);
  }

  /** One stretch of host memory backs the whole range. */
  ghost predicate Contiguous(t: HostTable, addr: nat, size: nat) {
    size > 0 && HostOf(t, addr).Some? && Backs(t, addr, size, HostOf(t, addr).value)
  }

  /** A translation is large enough for a copy exactly when the range is backed contiguously. */
  lemma TranslationDecides(t: HostTable, addr: nat, size: nat, p: nat, available: nat)
    requires Translates(t, addr, size, p, available) && size > 0
    ensures available >= size <==> Contiguous(t, addr, size)
    ensures available >= size ==> HostOf(t, addr) == Some(p)
  {
    hide HostOf;
    if Contiguous(t, addr, size) { BackedTranslatesInFull(t, addr, size, HostOf(t, addr).value, p, available); }
    if available >= size { assert HostOf(t, addr) == Some(p + (addr - addr)); }
  }

  lemma OnePage(t: HostTable, page: nat)
    requires page in t
    ensures Backs(t, page * PAGE_4KB, PAGE_4KB, t[page])
  {
    forall x: nat | page * PAGE_4KB <= x < page * PAGE_4KB + PAGE_4KB ensures HostOf(t, x) == Some(t[page] + (x - page * PAGE_4KB)) {
      assert x / PAGE_4KB == page && x % PAGE_4KB == x - page * PAGE_4KB;
    }
  }

  lemma RestOfPage(t: HostTable, addr: nat)
    requires addr / PAGE_4KB in t
    ensures Backs(t, addr, PAGE_4KB - addr % PAGE_4KB, t[addr / PAGE_4KB] + addr % PAGE_4KB)
  {
    OnePage(t, addr / PAGE_4KB);
  }

  /** The two tables, for system and local memory. */
  class Shm4Mapper {
    var systemTable: HostTable
    var localTable: HostTable

    constructor ()
      ensures Tables(true) == map[] && Tables(false) == map[]
    {
      systemTable, localTable := map[], map[];
    }

    function Tables(local: bool): HostTable
      reads this
    {
      if local then localTable else systemTable
    }

    /** mapSystemMemoryToPhysicalAddress, `p` being the memory given or the memory just allocated. */
    method MapSystemMemory(physAddress: nat, size: nat, isLocalMemory: bool, p: nat)
      requires physAddress % PAGE_4KB == 0 && size % PAGE_4KB == 0
      modifies this
      ensures Tables(isLocalMemory) == MapPages(old(Tables(isLocalMemory)), physAddress / PAGE_4KB, size / PAGE_4KB, p)
      ensures Tables(!isLocalMemory) == old(Tables(!isLocalMemory))
    {
      var entryNumber: nat := physAddress / PAGE_4KB;
      var left: nat, host: nat := size, p;
      while left > 0
        invariant left % PAGE_4KB == 0
        invariant MapPages(Tables(isLocalMemory), entryNumber, left / PAGE_4KB, host)
          == MapPages(old(Tables(isLocalMemory)), physAddress / PAGE_4KB, size / PAGE_4KB, p)
        invariant Tables(!isLocalMemory) == old(Tables(!isLocalMemory))
      {
        if isLocalMemory {
          localTable := localTable[entryNumber := host];
        } else {
          systemTable := systemTable[entryNumber := host];
        }
        entryNumber := entryNumber + 1;
        left := left - PAGE_4KB;
        host := host + PAGE_4KB;
      }
    }

    /** translatePhysicalAddressToSystemMemory */
    method Translate(physAddress: nat, size: nat, isLocalMemory: bool) returns (p: nat, availableSize: nat)
      ensures Translates(Tables(isLocalMemory), physAddress, size, p, availableSize)
    {
      var t := Tables(isLocalMemory);
      var entryNumber, pageOffset := physAddress / PAGE_4KB, physAddress % PAGE_4KB;
      if entryNumber !in t { return 0, 0; }
      p := t[entryNumber] + pageOffset;
      availableSize := PAGE_4KB - pageOffset;
      var expected := t[entryNumber] + PAGE_4KB;
      entryNumber := entryNumber + 1;
      var left: nat := size - Min(availableSize, size);
      RestOfPage(t, physAddress);
      while left > 0
        invariant availableSize >= PAGE_4KB - pageOffset
        invariant left > 0 ==> expected == p + availableSize && availableSize + left == size && (physAddress + availableSize) % PAGE_4KB == 0
                               && entryNumber == (physAddress + availableSize) / PAGE_4KB
        invariant left == 0 ==> availableSize >= size
        invariant Backs(t, physAddress, availableSize, p)
      {
        if entryNumber !in t || t[entryNumber] != expected { break; }
        OnePage(t, entryNumber);
        var step := Min(PAGE_4KB, left);
        availableSize := availableSize + step;
        left := left - step;
        expected := expected + PAGE_4KB;
        entryNumber := entryNumber + 1;
      }
    }
  }
}
