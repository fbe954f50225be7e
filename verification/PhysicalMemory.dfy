/** One allocator for system memory and one per local memory bank, and the bank masks that route to them. */
module PhysicalMemory {
  import opened Arithmetic
  import opened FrameAllocator

  /** Arena 0 is the main allocator; arena i + 1 serves memory bank bit i. */
  type Physical = seq<Arena>

  const RESERVED_GGTT_SPACE: nat := 0x8_0000

  function LowestBit(mask: nat): nat
    requires mask > 0
  {
    if mask % 2 == 1 then 0 else 1 + LowestBit(mask / 2)
  }

  /** Which allocator a bank mask is routed to. */
  function ArenaOf(count: nat, bank: nat): nat {
    if bank == 0 || count == 1 then 0 else LowestBit(bank) + 1
  }

  /** The routing asserts that the bank has an allocator. */
  predicate HasArena(mem: Physical, bank: nat) {
    ArenaOf(|mem|, bank) < |mem|
  }

  /** Reserving for a bank with no allocator is outside the source's contract; the total function leaves the state alone. */
  function Reserve(mem: Physical, bank: nat, size: nat, alignment: nat): (Physical, nat) {
    var i := ArenaOf(|mem|, bank);
    if i < |mem| then
      var (arena, block) := Alloc(mem[i], size, alignment);
      (mem[i := arena], block.addr)
    else (mem, 0)
  }

  function FreeFrame(mem: Physical, bank: nat, addr: nat): Physical {
    var i := ArenaOf(|mem|, bank);
    if i < |mem| then mem[i := Release(mem[i], addr)] else mem
  }

  /** The first address each arena may hand out; consecutive banks are `bankSize` apart. */
  function FirstAddress(i: nat, bankSize: nat, localMemory: bool): nat {
    if i == 0 then RESERVED_GGTT_SPACE
    else Max((if localMemory then bankSize / 256 else 0) + (i - 1) * bankSize, 0x1000)
  }

  function Fresh(count: nat, bankSize: nat, localMemory: bool): (mem: Physical)
    ensures |mem| == count + 1
  {
    seq(count + 1, i requires 0 <= i <= count => Arena(FirstAddress(i, bankSize, localMemory), [], []))
  }

  /** What the arenas are sized by. */
  datatype Layout = Layout(bankSize: nat, localMemory: bool)

  ghost predicate ValidPhysical(mem: Physical, g: Layout) {
    |mem| > 0 &&
    forall i :: 0 <= i < |mem| ==> Valid(mem[i], FirstAddress(i, g.bankSize, g.localMemory)) && OnPages(mem[i])
  }

  /** No local bank has run past the start of the next one. */
  ghost predicate WithinWindows(mem: Physical, g: Layout) {
    forall i :: 0 < i < |mem| ==> mem[i].next <= FirstAddress(i + 1, g.bankSize, g.localMemory)
  }

  ghost predicate InUse(mem: Physical, arena: nat, b: Block) {
    arena < |mem| && b in mem[arena].used
  }

  /** Bump pointers only ever move up, so a state inside its windows had only states inside their windows before it. */
  ghost predicate Grows(mem: Physical, mem': Physical) {
    |mem| == |mem'| && forall i :: 0 <= i < |mem| ==> mem[i].next <= mem'[i].next
  }

  lemma WindowsInherited(mem: Physical, mem': Physical, g: Layout)
    requires Grows(mem, mem') && WithinWindows(mem', g)
    ensures WithinWindows(mem, g)
  {
    forall i | 0 < i < |mem| ensures mem[i].next <= FirstAddress(i + 1, g.bankSize, g.localMemory) {
      assert mem'[i].next <= FirstAddress(i + 1, g.bankSize, g.localMemory);
    }
  }

  /** Alignments the allocators are asked for: powers of two. */
  predicate PageUnit(alignment: nat) {
    alignment <= PAGE_4KB || alignment % PAGE_4KB == 0
  }

  /** A reservation hands out a block that overlaps no block in use, and disturbs none. */
  lemma ReserveFacts(mem: Physical, g: Layout, bank: nat, size: nat, alignment: nat)
    requires ValidPhysical(mem, g) && HasArena(mem, bank) && size > 0 && PageUnit(alignment)
    ensures var (mem', addr) := Reserve(mem, bank, size, alignment); var k := ArenaOf(|mem|, bank);
      && ValidPhysical(mem', g) && Grows(mem, mem')
      && InUse(mem', k, Block(addr, size)) && addr % PAGE_4KB == 0
      && (forall i, b :: InUse(mem, i, b) ==> InUse(mem', i, b))
      && (forall i, b :: InUse(mem', i, b) && (i != k || b != Block(addr, size)) ==> InUse(mem, i, b))
      && (forall b :: InUse(mem, k, b) ==> Disjoint(Block(addr, size), b))
  {
    hide Valid, OnPages, Alloc, Disjoint;
    var k := ArenaOf(|mem|, bank);
    AllocFacts(mem[k], FirstAddress(k, g.bankSize, g.localMemory), size, alignment);
    AllocOnPages(mem[k], size, alignment);
    var (arena, block) := Alloc(mem[k], size, alignment);
    assert block == Block(block.addr, size);
  }

  ghost predicate Available(mem: Physical, arena: nat, b: Block) {
    arena < |mem| && b in mem[arena].free
  }

  /** Whatever is freed at an address moves the block in use there, if any, to the free blocks, and does nothing else. */
  lemma FreeFrameFacts(mem: Physical, g: Layout, bank: nat, addr: nat)
    requires ValidPhysical(mem, g)
    ensures var mem' := FreeFrame(mem, bank, addr); var k := ArenaOf(|mem|, bank);
      && ValidPhysical(mem', g) && Grows(mem, mem')
      && (forall i, c :: InUse(mem', i, c) <==> InUse(mem, i, c) && (i != k || c.addr != addr))
      && (forall i, c :: Available(mem', i, c) <==> Available(mem, i, c) || (InUse(mem, i, c) && i == k && c.addr == addr))
  {
    hide Valid, OnPages, Release;
    var k := ArenaOf(|mem|, bank);
    if k < |mem| {
      ReleaseFacts(mem[k], FirstAddress(k, g.bankSize, g.localMemory), addr);
      ReleaseOnPages(mem[k], addr);
    }
  }

  /** Free blocks of the large page sizes are aligned to them: what makes fresh frames aligned. */
  ghost predicate AlignedPool(mem: Physical) {
    forall i, b :: Available(mem, i, b) ==> PageAligned(b)
  }

  lemma ReserveKeepsPool(mem: Physical, bank: nat, size: nat, alignment: nat)
    requires AlignedPool(mem)
    ensures AlignedPool(Reserve(mem, bank, size, alignment).0)
  {
    hide Alloc, PageAligned;
    var mem' := Reserve(mem, bank, size, alignment).0;
    var k := ArenaOf(|mem|, bank);
    if k < |mem| { AllocTakesFree(mem[k], size, alignment); }
    forall i, b | Available(mem', i, b) ensures PageAligned(b) { assert Available(mem, i, b); }
  }

  lemma AllocTakesFree(a: Arena, size: nat, alignment: nat)
    ensures forall c :: c in Alloc(a, size, alignment).0.free ==> c in a.free
  {
    hide Insert;
    var i := FindSize(a.free, size);
    if i < |a.free| {
      forall c | c in Remove(a.free, i) ensures c in a.free {
        if c in a.free[..i] { assert c in a.free; } else { assert c in a.free[i + 1..]; }
      }
    }
  }

  /** A frame of a page's size is aligned to it. */
  lemma FreshFrameAligned(mem: Physical, g: Layout, bank: nat, size: nat)
    requires ValidPhysical(mem, g) && AlignedPool(mem) && HasArena(mem, bank)
    requires size == PAGE_4KB || size == PAGE_64KB || size == PAGE_2MB
    ensures Reserve(mem, bank, size, size).1 % size == 0
  {
    hide Valid, OnPages, Alloc, PageAligned;
    var k := ArenaOf(|mem|, bank);
    forall b | b in mem[k].free ensures PageAligned(b) { assert Available(mem, k, b); }
    AllocPageAligned(mem[k], size);
  }

  /** Blocks in use never overlap inside an arena, nor across two local banks that stayed in their windows. */
  lemma InUseDisjoint(mem: Physical, g: Layout, i: nat, b: Block, j: nat, c: Block)
    requires ValidPhysical(mem, g) && WithinWindows(mem, g)
    requires InUse(mem, i, b) && InUse(mem, j, c) && (i != j || b != c)
    requires (i == 0) == (j == 0)
    ensures Disjoint(b, c)
  {
    hide Valid, OnPages;
    UsedDisjoint(mem[i], FirstAddress(i, g.bankSize, g.localMemory), b, b);
    UsedDisjoint(mem[j], FirstAddress(j, g.bankSize, g.localMemory), c, c);
    if i == j {
      UsedDisjoint(mem[i], FirstAddress(i, g.bankSize, g.localMemory), b, c);
    } else if i < j {
      WindowsOrdered(i + 1, j, g);
    } else if j < i {
      WindowsOrdered(j + 1, i, g);
    }
  }

  lemma WindowsOrdered(i: nat, j: nat, g: Layout)
    requires 0 < i <= j
    ensures FirstAddress(i, g.bankSize, g.localMemory) <= FirstAddress(j, g.bankSize, g.localMemory)
  {
    if i < j {
      WindowsOrdered(i, j - 1, g);
      assert (j - 1) * g.bankSize == (j - 2) * g.bankSize + g.bankSize;
    }
  }

  lemma FreshIsValid(count: nat, bankSize: nat, localMemory: bool)
    ensures ValidPhysical(Fresh(count, bankSize, localMemory), Layout(bankSize, localMemory))
    ensures AlignedPool(Fresh(count, bankSize, localMemory))
  {
  }

  class PhysicalAddressAllocatorSimple {
    const mainAllocator: SimpleAllocator
    const allocators: seq<SimpleAllocator>

    ghost predicate Valid()
      reads this
    {
      && mainAllocator !in allocators
      && (forall i, j :: 0 <= i < j < |allocators| ==> allocators[i] != allocators[j])
    }

    ghost function Repr(): set<object>
      reads this
    {
      {mainAllocator} + set a | a in allocators
    }

    ghost function State(): (mem: Physical)
      reads this, Repr()
      ensures |mem| == |allocators| + 1
    {
      [mainAllocator.State()] + seq(|allocators|, i requires 0 <= i < |allocators| reads this, Repr() => allocators[i].State())
    }

    constructor (numberOfAllocators: nat, singleAllocatorSize: nat, localMemorySupport: bool)
      ensures Valid() && fresh(Repr())
      ensures State() == Fresh(numberOfAllocators, singleAllocatorSize, localMemorySupport)
    {
      var main := new SimpleAllocator(RESERVED_GGTT_SPACE);
      var banks: seq<SimpleAllocator> := [];
      var startAddress := if localMemorySupport then singleAllocatorSize / 256 else 0;
      while |banks| < numberOfAllocators
        invariant |banks| <= numberOfAllocators
        invariant startAddress == (if localMemorySupport then singleAllocatorSize / 256 else 0) + |banks| * singleAllocatorSize
        invariant fresh(main) && main !in banks && main.State() == Arena(RESERVED_GGTT_SPACE, [], [])
        invariant forall a :: a in banks ==> fresh(a)
        invariant forall i, j :: 0 <= i < j < |banks| ==> banks[i] != banks[j]
        invariant forall i :: 0 <= i < |banks| ==>
          banks[i].State() == Arena(FirstAddress(i + 1, singleAllocatorSize, localMemorySupport), [], [])
      {
        var bank := new SimpleAllocator(Max(startAddress, 0x1000));
        banks := banks + [bank];
        startAddress := startAddress + singleAllocatorSize;
      }
      mainAllocator := main;
      allocators := banks;
    }

    method BankIndex(memoryBank: nat) returns (allocatorIndex: nat)
      requires memoryBank > 0
      ensures allocatorIndex == LowestBit(memoryBank)
    {
      var bank := memoryBank;
      allocatorIndex := 0;
      while bank % 2 == 0
        invariant bank > 0
        invariant allocatorIndex + LowestBit(bank) == LowestBit(memoryBank)
        decreases bank
      {
        bank := bank / 2;
        allocatorIndex := allocatorIndex + 1;
      }
    }

    method ReservePhysicalMemory(memoryBank: nat, size: nat, alignment: nat) returns (address: nat)
      requires Valid() && HasArena(State(), memoryBank)
      modifies Repr()
      ensures Valid()
      ensures (State(), address) == Reserve(old(State()), memoryBank, size, alignment)
    {
      ghost var before := State();
      if memoryBank == 0 || |allocators| == 0 {
        address := mainAllocator.AlignedAlloc(size, alignment);
        assert State() == before[0 := Alloc(before[0], size, alignment).0];
      } else {
        var i := BankIndex(memoryBank);
        address := allocators[i].AlignedAlloc(size, alignment);
        assert State() == before[i + 1 := Alloc(before[i + 1], size, alignment).0];
      }
    }

    method FreePhysicalMemory(memoryBank: nat, address: nat)
      requires Valid() && HasArena(State(), memoryBank)
      modifies Repr()
      ensures Valid()
      ensures State() == FreeFrame(old(State()), memoryBank, address)
    {
      if memoryBank == 0 || |allocators| == 0 {
        mainAllocator.AlignedFree(address);
      } else {
        var i := BankIndex(memoryBank);
        allocators[i].AlignedFree(address);
      }
    }
  }
}
