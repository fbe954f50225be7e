/** The page-table nodes of every GPU address space, as one heap indexed by the slot that points to each node. */
module PageTables {
  import opened Wrappers
  import opened Arithmetic
  import opened PhysicalMemory

  datatype Kind = Pml5 | Pml4 | Pdp | Pde | Pte4KB | Pte64KB | Page2MB | Page

  datatype Attributes = Attributes(compressionEnabled: bool, uncached: bool)

  const NO_ATTRIBUTES := Attributes(false, false)

  /** `reserved` is the number of bytes the constructor took from the allocator, 0 for a node built at a given address. */
  datatype Node = Node(kind: Kind, phys: nat, bank: nat, attributes: Attributes, reserved: nat, ps64: bool, pending: bool)

  /** The table slot holding a node: `num` lists the indices from the root in base 512, so the parent's is `num / 512`. */
  datatype Slot = Slot(tree: nat, level: nat, num: nat)

  type Forest = map<Slot, Node>

  /** What does not change in a run: the GPU's table depth and formats, and its encoding of allocation attributes. */
  datatype Config = Config(levels: nat, legacy: bool, ps64Enabled: bool, extraBits: Attributes -> nat)

  predicate ValidConfig(cfg: Config) {
    cfg.levels == 4 || cfg.levels == 5
  }

  /** An entry as streamed: the frame address and the flag bits beside it. */
  datatype Entry = Cleared | Entry(addr: nat, local: bool, ps64: bool, large: bool, intermediate: bool, extra: nat)

  predicate IsTable(kind: Kind) {
    !kind.Page? && !kind.Page2MB?
  }

  function Root(cfg: Config, tree: nat): Slot {
    Slot(tree, cfg.levels, 0)
  }

  function Parent(s: Slot): Slot {
    Slot(s.tree, s.level + 1, s.num / 512)
  }

  function Child(s: Slot, index: nat): Slot
    requires s.level > 0
  {
    Slot(s.tree, s.level - 1, s.num * 512 + index)
  }

  /** The slot at a level above the leaves that a walk for `va` passes through. */
  function TableSlot(tree: nat, level: nat, va: nat): Slot
    requires level <= 5
  {
    Slot(tree, level, va / Span(level))
  }

  /** The kind of table a slot at this level holds when it does not hold a PTE. */
  function TableKind(level: nat): Kind {
    if level >= 5 then Pml5 else if level == 4 then Pml4 else if level == 3 then Pdp else Pde
  }

  function PteSize(kind: Kind): (r: nat)
    ensures r == PAGE_4KB || r == PAGE_64KB
  {
    if kind.Pte64KB? then PAGE_64KB else PAGE_4KB
  }

  function PteKind(pageSize: nat): Kind {
    if pageSize == PAGE_64KB then Pte64KB else Pte4KB
  }

  /** getIndex: which entry of a table covers an address. */
  function Index(cfg: Config, kind: Kind, va: nat): nat {
    match kind
    case Pml5 => va / Span(4) % 512
    case Pml4 => va / Span(3) % 512
    case Pdp => va / Span(2) % 512
    case Pde => va / Span(1) % 512
    case Pte4KB => va / PAGE_4KB % 512
    case Pte64KB => if cfg.legacy then va / PAGE_64KB % 32 * 16 else va / PAGE_64KB % 32
    case _ => 0
  }

  function LeafSlot(cfg: Config, tree: nat, kind: Kind, va: nat): Slot {
    Slot(tree, 0, va / PAGE_2MB * 512 + Index(cfg, kind, va))
  }

  function EntryOf(cfg: Config, n: Node): Entry {
    if IsTable(n.kind) then Entry(n.phys, false, false, false, n.kind.Pte64KB?, 0)
    else Entry(n.phys, n.bank != 0, n.ps64 && n.kind.Page?, n.kind.Page2MB?, false, cfg.extraBits(n.attributes))
  }

  /** ps64EntryFlags: everything in the entry but the address and the PS64 bit. */
  function FlagsOf(cfg: Config, n: Node): Entry {
    var e := EntryOf(cfg, n);
    e.(addr := 0, ps64 := false)
  }

  /** The physical address of the 8-byte entry in its table. */
  function EntryAddress(nodes: Forest, s: Slot): nat {
    (if Parent(s) in nodes then nodes[Parent(s)].phys else 0) + s.num % 512 * 8
  }

  predicate KindFits(cfg: Config, s: Slot, kind: Kind) {
    if s.level == 0 then kind.Page?
    else if s.level == 1 then kind.Pte4KB? || kind.Pte64KB? || kind.Page2MB?
    else kind == TableKind(s.level)
  }

  /** The entry numbers a PTE can use: all 512, or 32 of them for 64KB pages. */
  predicate IndexFits(cfg: Config, parent: Kind, index: nat) {
    parent.Pte64KB? ==> if cfg.legacy then index % 16 == 0 else index < 32
  }

  /** One node in its place: its kind fits its level, and the table above it is there and is a table. */
  ghost predicate Placed(cfg: Config, nodes: Forest, s: Slot)
    requires s in nodes
  {
    && s.level <= cfg.levels
    && KindFits(cfg, s, nodes[s].kind)
    && (s.level == cfg.levels ==> s.num == 0)
    && (s.level < cfg.levels ==>
          && Parent(s) in nodes && IsTable(nodes[Parent(s)].kind)
          && IndexFits(cfg, nodes[Parent(s)].kind, s.num % 512))
    && (IsTable(nodes[s].kind) && s.level < cfg.levels && Parent(s) in nodes ==> nodes[s].bank == nodes[Parent(s)].bank)
  }

  /** Every node hangs off a table that hangs off ... a root: the heap is a forest. */
  ghost predicate WellFormed(cfg: Config, nodes: Forest) {
    forall s :: s in nodes ==> Placed(cfg, nodes, s)
  }

  predicate InRange(cfg: Config, va: nat) {
    cfg.levels <= 5 && va < Span(cfg.levels)
  }

  /** The slot of the leaf page that covers an address, if any. */
  function LeafOf(cfg: Config, nodes: Forest, tree: nat, va: nat): (r: Option<Slot>)
    ensures r.Some? ==> r.value in nodes
  {
    var s := TableSlot(tree, 1, va);
    if s !in nodes then None
    else if nodes[s].kind.Page2MB? then Some(s)
    else
      var leaf := LeafSlot(cfg, tree, nodes[s].kind, va);
      if leaf in nodes then Some(leaf) else None
  }

  /** Bytes covered by a leaf: 2MB, or what its PTE says. */
  function LeafSize(nodes: Forest, s: Slot): (r: nat)
    ensures r == PAGE_4KB || r == PAGE_64KB || r == PAGE_2MB
  {
    if s.level == 1 then PAGE_2MB
    else if Parent(s) in nodes then PteSize(nodes[Parent(s)].kind) else PAGE_4KB
  }

  datatype Target = Target(phys: nat, local: bool)

  /** The simple lookup: where one byte of virtual memory lives. */
  function Translate(cfg: Config, nodes: Forest, tree: nat, va: nat): Option<Target> {
    match LeafOf(cfg, nodes, tree, va)
    case None => None
    case Some(s) => Some(Target(nodes[s].phys + va % LeafSize(nodes, s), nodes[s].bank != 0))
  }

  // ---- slot arithmetic ----

  /** Following getIndex from the table above reaches the slot numbered by the address itself. */
  lemma ChildIsTableSlot(cfg: Config, tree: nat, level: nat, va: nat)
    requires 1 <= level <= 4
    ensures Child(TableSlot(tree, level + 1, va), Index(cfg, TableKind(level + 1), va)) == TableSlot(tree, level, va)
    ensures Parent(TableSlot(tree, level, va)) == TableSlot(tree, level + 1, va)
  {
    SpanStep(va, level);
  }

  lemma RootIsTableSlot(cfg: Config, tree: nat, va: nat)
    requires ValidConfig(cfg) && InRange(cfg, va)
    ensures Root(cfg, tree) == TableSlot(tree, cfg.levels, va)
  {
  }

  lemma IndexBound(cfg: Config, kind: Kind, va: nat)
    ensures Index(cfg, kind, va) < 512
    ensures IsTable(kind) ==> IndexFits(cfg, kind, Index(cfg, kind, va))
  {
  }

  lemma LeafSlotParent(cfg: Config, tree: nat, kind: Kind, va: nat)
    ensures Parent(LeafSlot(cfg, tree, kind, va)) == TableSlot(tree, 1, va)
    ensures LeafSlot(cfg, tree, kind, va) == Child(TableSlot(tree, 1, va), Index(cfg, kind, va))
    ensures LeafSlot(cfg, tree, kind, va).num % 512 == Index(cfg, kind, va)
  {
    IndexBound(cfg, kind, va);
  }

  /** The size of the leaf page that a PDE slot leads to. */
  function PageSizeAt(kind: Kind): (r: nat)
    ensures r == PAGE_4KB || r == PAGE_64KB || r == PAGE_2MB
  {
    if kind.Page2MB? then PAGE_2MB else PteSize(kind)
  }

  /** Two addresses share a 4KB or 64KB leaf slot exactly when they lie in the same page of that size. */
  lemma LeafSlotInjective(cfg: Config, tree: nat, kind: Kind, va: nat, vb: nat)
    requires kind.Pte4KB? || kind.Pte64KB?
    ensures LeafSlot(cfg, tree, kind, va) == LeafSlot(cfg, tree, kind, vb) <==> va / PteSize(kind) == vb / PteSize(kind)
  {
    hide Index, LeafSlot;
    if kind.Pte4KB? {
      SmallLeafSlot(cfg, tree, va);
      SmallLeafSlot(cfg, tree, vb);
    } else {
      LargeLeafSlot(cfg, tree, va);
      LargeLeafSlot(cfg, tree, vb);
      Sixteenths(va);
      Sixteenths(vb);
    }
  }

  lemma LargeLeafSlot(cfg: Config, tree: nat, va: nat)
    ensures LeafSlot(cfg, tree, Pte64KB, va) ==
            Slot(tree, 0, va / PAGE_2MB * 512 + va / PAGE_64KB % 32 * (if cfg.legacy then 16 else 1))
  {
  }

  lemma Sixteenths(va: nat)
    ensures va / PAGE_2MB == va / PAGE_64KB / 32
    ensures va / PAGE_64KB == va / PAGE_2MB * 32 + va / PAGE_64KB % 32
  {
  }

  /** A leaf slot under a 4KB PTE is numbered by the page itself. */
  lemma SmallLeafSlot(cfg: Config, tree: nat, va: nat)
    ensures LeafSlot(cfg, tree, Pte4KB, va) == Slot(tree, 0, va / PAGE_4KB)
  {
    SpanStep(va, 0);
  }

  /** Addresses in one leaf page have the same leaf. */
  lemma SamePageSameLeaf(cfg: Config, nodes: Forest, tree: nat, va: nat, vb: nat)
    requires LeafOf(cfg, nodes, tree, va).Some?
    requires var size := LeafSize(nodes, LeafOf(cfg, nodes, tree, va).value); va / size == vb / size
    requires WellFormed(cfg, nodes)
    ensures LeafOf(cfg, nodes, tree, vb) == LeafOf(cfg, nodes, tree, va)
  {
    var s := TableSlot(tree, 1, va);
    var leaf := LeafOf(cfg, nodes, tree, va).value;
    assert Placed(cfg, nodes, s);
    if !nodes[s].kind.Page2MB? {
      LeafSlotParent(cfg, tree, nodes[s].kind, va);
      LeafSlotInjective(cfg, tree, nodes[s].kind, va, vb);
      SamePdeSlot(va, vb, PteSize(nodes[s].kind));
    }
  }

  lemma SamePdeSlot(va: nat, vb: nat, size: nat)
    requires size == PAGE_4KB || size == PAGE_64KB
    requires va / size == vb / size
    ensures va / PAGE_2MB == vb / PAGE_2MB
  {
    if size == PAGE_4KB { SpanStep(va, 0); SpanStep(vb, 0); } else { Sixteenths(va); Sixteenths(vb); }
  }
}
