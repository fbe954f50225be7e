/** The frames taken for live nodes are in use in their allocators and no two nodes share one: for the tables, or for every node. */
module FrameOwnership {
  import opened Wrappers
  import opened Arithmetic
  import opened FrameAllocator
  import opened PhysicalMemory
  import opened MemoryBanks
  import opened PageTables
  import opened WalkModel
  import opened TreeFacts
  import opened WalkLookup

  function ArenaFor(mem: Physical, n: Node): nat {
    ArenaOf(|mem|, n.bank)
  }

  function FrameOf(n: Node): Block {
    Block(n.phys, n.reserved)
  }

  /** Whose frames are accounted for. Leaves can be remapped out of the frames they own; tables cannot. */
  datatype Owners = Tables | Everyone

  predicate Claims(who: Owners, n: Node) {
    n.reserved > 0 && (who.Everyone? || IsTable(n.kind))
  }

  /** This node's frame, if accounted for, is in use, and tables always have one of 4KB. */
  ghost predicate HoldsFrame(nodes: Forest, mem: Physical, who: Owners, s: Slot)
    requires s in nodes
  {
    && (Claims(who, nodes[s]) ==> InUse(mem, ArenaFor(mem, nodes[s]), FrameOf(nodes[s])))
    && (who.Everyone? && nodes[s].reserved > 0 ==> nodes[s].phys % nodes[s].reserved == 0)
    && (IsTable(nodes[s].kind) ==> nodes[s].reserved == PAGE_4KB)
  }

  ghost predicate FramesDiffer(nodes: Forest, mem: Physical, who: Owners, s: Slot, t: Slot)
    requires s in nodes && t in nodes
  {
    s != t && Claims(who, nodes[s]) && Claims(who, nodes[t]) && ArenaFor(mem, nodes[s]) == ArenaFor(mem, nodes[t]) ==>
      FrameOf(nodes[s]) != FrameOf(nodes[t])
  }

  ghost predicate Owned(nodes: Forest, mem: Physical, who: Owners) {
    && (forall s :: s in nodes ==> HoldsFrame(nodes, mem, who, s))
    && (forall s, t :: s in nodes && t in nodes ==> FramesDiffer(nodes, mem, who, s, t))
  }

  /** If every node's frame is accounted for then every table's is. */
  lemma EveryoneIncludesTables(nodes: Forest, mem: Physical, who: Owners)
    requires Owned(nodes, mem, who)
    ensures Owned(nodes, mem, Tables)
  {
    hide InUse, ArenaOf;
    forall s | s in nodes ensures HoldsFrame(nodes, mem, Tables, s) { assert HoldsFrame(nodes, mem, who, s); }
    forall s, t | s in nodes && t in nodes ensures FramesDiffer(nodes, mem, Tables, s, t) { assert FramesDiffer(nodes, mem, who, s, t); }
  }

  /** Same frames, same owners. */
  lemma SameFramesOwned(nodes: Forest, nodes': Forest, mem: Physical, who: Owners)
    requires Owned(nodes, mem, who) && nodes'.Keys == nodes.Keys && Evolves(nodes, nodes', None)
    ensures Owned(nodes', mem, who)
  {
    hide InUse, ArenaOf;
    forall s | s in nodes' ensures HoldsFrame(nodes', mem, who, s) { assert HoldsFrame(nodes, mem, who, s); }
    forall s, t | s in nodes' && t in nodes' ensures FramesDiffer(nodes', mem, who, s, t) { assert FramesDiffer(nodes, mem, who, s, t); }
  }

  predicate PageSized(size: nat) {
    size == PAGE_4KB || size == PAGE_64KB || size == PAGE_2MB
  }

  /** A node with a frame fresh from the allocator. */
  lemma AddedOwned(nodes: Forest, mem: Physical, g: Layout, who: Owners, s: Slot, n: Node)
    requires Sane(nodes, mem, g, who) && s !in nodes && PageSized(n.reserved) && HasArena(mem, n.bank)
    requires (IsTable(n.kind) ==> n.reserved == PAGE_4KB)
    requires n.phys == PhysicalMemory.Reserve(mem, n.bank, n.reserved, n.reserved).1
    ensures var mem' := PhysicalMemory.Reserve(mem, n.bank, n.reserved, n.reserved).0;
      Sane(nodes[s := n], mem', g, who) && Grows(mem, mem')
  {
    hide ArenaOf, InUse, PhysicalMemory.Reserve, ValidPhysical, FrameAllocator.Disjoint, AlignedPool;
    ReserveFacts(mem, g, n.bank, n.reserved, n.reserved);
    var mem' := PhysicalMemory.Reserve(mem, n.bank, n.reserved, n.reserved).0;
    var nodes' := nodes[s := n];
    if who.Everyone? {
      FreshFrameAligned(mem, g, n.bank, n.reserved);
      ReserveKeepsPool(mem, n.bank, n.reserved, n.reserved);
    }
    forall t | t in nodes' ensures HoldsFrame(nodes', mem', who, t) {
      if t != s { assert HoldsFrame(nodes, mem, who, t); }
    }
    forall t | t in nodes && Claims(who, nodes[t]) && ArenaFor(mem, nodes[t]) == ArenaFor(mem, n)
      ensures FrameOf(nodes[t]) != FrameOf(n) {
      assert HoldsFrame(nodes, mem, who, t);
      DisjointBlocksDiffer(FrameOf(n), FrameOf(nodes[t]));
    }
    forall t, u | t in nodes' && u in nodes' ensures FramesDiffer(nodes', mem', who, t, u) {
      if t != s && u != s { assert FramesDiffer(nodes, mem, who, t, u); }
    }
  }

  lemma DisjointBlocksDiffer(b: Block, c: Block)
    requires FrameAllocator.Disjoint(b, c) && b.size > 0
    ensures b != c
  {
  }

  lemma AddedUnowned(nodes: Forest, mem: Physical, who: Owners, s: Slot, n: Node)
    requires Owned(nodes, mem, who) && !IsTable(n.kind) && (who.Everyone? ==> n.reserved == 0)
    ensures Owned(nodes[s := n], mem, who)
  {
    hide InUse, ArenaOf;
    var nodes' := nodes[s := n];
    forall t | t in nodes' ensures HoldsFrame(nodes', mem, who, t) { if t != s { assert HoldsFrame(nodes, mem, who, t); } }
    forall t, u | t in nodes' && u in nodes' ensures FramesDiffer(nodes', mem, who, t, u) {
      if t != s && u != s { assert FramesDiffer(nodes, mem, who, t, u); }
    }
  }

  /** What a walk needs of the banks it names: each has an allocator. */
  ghost predicate BanksExist(q: Request, mem: Physical) {
    |mem| > 0 && forall b :: b == 0 || b in SingleBanks(q.banks, 1) ==> HasArena(mem, b)
  }

  ghost predicate Sane(nodes: Forest, mem: Physical, g: Layout, who: Owners) {
    Owned(nodes, mem, who) && ValidPhysical(mem, g) && (who.Everyone? ==> AlignedPool(mem))
  }

  ghost predicate Kept(w: Walk, r: Walk, g: Layout, who: Owners) {
    Sane(r.nodes, r.mem, g, who) && Grows(w.mem, r.mem)
  }

  lemma GrowsTransitive(a: Physical, b: Physical, c: Physical)
    requires Grows(a, b) && Grows(b, c)
    ensures Grows(a, c)
  {
  }

  lemma AddTableOwned(w: Walk, g: Layout, who: Owners, s: Slot, kind: Kind)
    requires Sane(w.nodes, w.mem, g, who) && s !in w.nodes && IsTable(kind)
    requires Parent(s) in w.nodes && IsTable(w.nodes[Parent(s)].kind)
    ensures Kept(w, AddTable(w, s, kind), g, who)
  {
    hide ValidPhysical, PhysicalMemory.Reserve, Owned, Grows, AlignedPool;
    ParentHasArena(w.nodes, w.mem, who, Parent(s));
    AddedOwned(w.nodes, w.mem, g, who, s, AddTable(w, s, kind).nodes[s]);
  }

  lemma ParentHasArena(nodes: Forest, mem: Physical, who: Owners, s: Slot)
    requires Owned(nodes, mem, who) && s in nodes && IsTable(nodes[s].kind)
    ensures HasArena(mem, nodes[s].bank)
  {
    assert HoldsFrame(nodes, mem, who, s);
  }

  lemma PlaceLeafOwned(q: Request, w: Walk, g: Layout, who: Owners, s: Slot, kind: Kind, pageSize: nat, bank: nat, target: nat, info: PageInfo)
    requires Sane(w.nodes, w.mem, g, who) && PageSized(pageSize) && !IsTable(kind)
    requires q.mode.Clone? || q.mapping || HasArena(w.mem, bank)
    requires s in w.nodes && q.mapping ==> !IsTable(w.nodes[s].kind) && (who.Everyone? ==> w.nodes[s].reserved == 0)
    ensures Kept(w, PlaceLeaf(q, w, s, kind, pageSize, bank, target, info), g, who)
  {
    hide ValidPhysical, PhysicalMemory.Reserve, Owned, AlignedPool;
    var r := PlaceLeaf(q, w, s, kind, pageSize, bank, target, info);
    if s !in w.nodes && !q.mode.Clone? && !q.mapping {
      AddedOwned(w.nodes, w.mem, g, who, s, r.nodes[s]);
    } else if s !in w.nodes || q.mapping {
      AddedUnowned(w.nodes, w.mem, who, s, r.nodes[s]);
      assert r.nodes == w.nodes[s := r.nodes[s]];
    }
  }

  lemma VisitLeafOwned(cfg: Config, q: Request, before: Forest, w: Walk, g: Layout, who: Owners, s: Slot, pageSize: nat, size: nat)
    requires Sane(w.nodes, w.mem, g, who) && s in w.nodes && s.level < 5
    ensures Kept(w, VisitLeaf(cfg, q, before, w, s, pageSize, size), g, who)
  {
    hide ValidPhysical, AlignedPool, Owned, Ps64Visit, PlainVisit, WasGroup, Evolves;
    var r := VisitLeaf(cfg, q, before, w, s, pageSize, size);
    if Ps64Applicable(cfg, q) && pageSize == PAGE_4KB {
      Ps64VisitEvolves(cfg, w, s, WasGroup(cfg, before, s), size);
      SameFramesOwned(w.nodes, r.nodes, w.mem, who);
    }
  }

  /** A mapping walk that is to leave every leaf in the frame it owns may only be pointed at leaves that own none. */
  ghost predicate NoOwnedLeaf(cfg: Config, q: Request, nodes: Forest, who: Owners, x: nat) {
    who.Everyone? && q.mapping && LeafOf(cfg, nodes, q.tree, x).Some? ==> nodes[LeafOf(cfg, nodes, q.tree, x).value].reserved == 0
  }

  lemma PteStepOwned(cfg: Config, q: Request, w: Walk, g: Layout, who: Owners, va: nat, size: nat, bank: nat, target: nat, info: PageInfo)
    requires Ready(cfg, q, w.nodes, va) && Sane(w.nodes, w.mem, g, who) && NoOwnedLeaf(cfg, q, w.nodes, who, va)
    requires TableSlot(q.tree, 1, va) in w.nodes && IsTable(w.nodes[TableSlot(q.tree, 1, va)].kind)
    requires q.mode.Clone? || q.mapping || HasArena(w.mem, bank)
    ensures Kept(w, PteStep(cfg, q, w, va, size, bank, target, info).w, g, who)
  {
    hide PlaceLeaf, VisitLeaf, WellFormed, Sane, LeafSlot, ArenaOf;
    var kind := w.nodes[TableSlot(q.tree, 1, va)].kind;
    var s := LeafSlot(cfg, q.tree, kind, va);
    LeafSlotLevel(cfg, q.tree, kind, va);
    if s in w.nodes { LeafUnderTable(cfg, w.nodes, s); }
    if s in w.nodes || !q.mode.Expect? {
      PlaceLeafOwned(q, w, g, who, s, Page, PteSize(kind), bank, target, info);
      VisitLeafOwned(cfg, q, w.nodes, PlaceLeaf(q, w, s, Page, PteSize(kind), bank, target, info), g, who, s, PteSize(kind), size);
    }
  }

  lemma LargePageStepOwned(cfg: Config, q: Request, w: Walk, g: Layout, who: Owners, va: nat, bank: nat, target: nat, info: PageInfo)
    requires Sane(w.nodes, w.mem, g, who) && NoOwnedLeaf(cfg, q, w.nodes, who, va)
    requires var s := TableSlot(q.tree, 1, va); s in w.nodes ==> w.nodes[s].kind.Page2MB?
    requires q.mode.Clone? || q.mapping || HasArena(w.mem, bank)
    ensures Kept(w, LargePageStep(cfg, q, w, TableSlot(q.tree, 1, va), bank, target, info).w, g, who)
  {
    hide PlaceLeaf, PlainVisit, Sane, ArenaOf;
    PlaceLeafOwned(q, w, g, who, TableSlot(q.tree, 1, va), Page2MB, PAGE_2MB, bank, if q.mapping then Realign(target) else target, info);
  }

  lemma PdeStepOwned(cfg: Config, q: Request, w: Walk, g: Layout, who: Owners, va: nat, size: nat, bank: nat, target: nat, info: PageInfo)
    requires Ready(cfg, q, w.nodes, va) && TableSlot(q.tree, 2, va) in w.nodes
    requires Sane(w.nodes, w.mem, g, who) && NoOwnedLeaf(cfg, q, w.nodes, who, va)
    requires q.mode.Clone? || q.mapping || HasArena(w.mem, bank)
    ensures Kept(w, PdeStep(cfg, q, w, va, size, bank, target, info).w, g, who)
  {
    hide PteStep, PlainVisit, LargePageStep, AddTable, WellFormed, Grown, Span, Sane, ArenaOf, LeafSlot;
    var s := TableSlot(q.tree, 1, va);
    ChildIsTableSlot(cfg, q.tree, 1, va);
    TableAbove(cfg, w.nodes, TableSlot(q.tree, 2, va));
    GrownReflexive(cfg, q.tree, va, w.nodes);
    if s in w.nodes { KindAtPde(cfg, w.nodes, s); }
    if s in w.nodes && !w.nodes[s].kind.Page2MB? {
      PteStepOwned(cfg, q, PlainVisit(cfg, w, s, q.mapping), g, who, va, size, bank, target, info);
    } else if (s in w.nodes && q.mapping) || (s !in w.nodes && !q.mode.Expect? && q.pageSize == PAGE_2MB) {
      LargePageStepOwned(cfg, q, w, g, who, va, bank, target, info);
    } else if s !in w.nodes && !q.mode.Expect? {
      AddTableOwned(w, g, who, s, PteKind(q.pageSize));
      AddTableFacts(cfg, w, va, s, PteKind(q.pageSize));
      var w2 := PlainVisit(cfg, AddTable(w, s, PteKind(q.pageSize)), s, true);
      GrownStaysReady(cfg, q, va, w.nodes, w2.nodes);
      NewTableIsEmpty(cfg, q, w.nodes, w2.nodes, va);
      ArenasStay(w.mem, w2.mem, bank);
      PteStepOwned(cfg, q, w2, g, who, va, size, bank, target, info);
      GrowsTransitive(w.mem, w2.mem, PteStep(cfg, q, w2, va, size, bank, target, info).w.mem);
    }
  }

  lemma ArenasStay(mem: Physical, mem': Physical, bank: nat)
    requires Grows(mem, mem')
    ensures HasArena(mem, bank) ==> HasArena(mem', bank)
  {
  }

  lemma NewTableIsEmpty(cfg: Config, q: Request, nodes: Forest, nodes': Forest, va: nat)
    requires Ready(cfg, q, nodes, va)
    requires var s := TableSlot(q.tree, 1, va); s !in nodes && nodes'.Keys == nodes.Keys + {s} && IsTable(nodes'[s].kind)
    ensures LeafOf(cfg, nodes', q.tree, va) == None
  {
    hide WellFormed, LeafSlot;
    var s := TableSlot(q.tree, 1, va);
    LeafSlotParent(cfg, q.tree, nodes'[s].kind, va);
    LeafSlotLevel(cfg, q.tree, nodes'[s].kind, va);
    if LeafSlot(cfg, q.tree, nodes'[s].kind, va) in nodes { ParentPresent(cfg, nodes, LeafSlot(cfg, q.tree, nodes'[s].kind, va)); }
  }

  lemma {:induction false} TablesDownOwned(cfg: Config, q: Request, w: Walk, g: Layout, who: Owners, va: nat, level: nat)
    requires Ready(cfg, q, w.nodes, va) && 1 <= level < cfg.levels && TableSlot(q.tree, level + 1, va) in w.nodes
    requires Sane(w.nodes, w.mem, g, who)
    ensures Kept(w, TablesDown(cfg, q, w, va, level).0, g, who)
    decreases level
  {
    hide AddTable, PlainVisit, Grown, WellFormed, Span, Sane;
    if level >= 2 {
      var s := TableSlot(q.tree, level, va);
      ChildIsTableSlot(cfg, q.tree, level, va);
      TableAbove(cfg, w.nodes, TableSlot(q.tree, level + 1, va));
      if s in w.nodes || !q.mode.Expect? {
        GrownReflexive(cfg, q.tree, va, w.nodes);
        if s !in w.nodes {
          AddTableFacts(cfg, w, va, s, TableKind(level));
          AddTableOwned(w, g, who, s, TableKind(level));
        }
        var w1 := if s in w.nodes then w else AddTable(w, s, TableKind(level));
        var w2 := PlainVisit(cfg, w1, s, s !in w.nodes || q.mapping);
        GrownStaysReady(cfg, q, va, w.nodes, w2.nodes);
        TablesDownOwned(cfg, q, w2, g, who, va, level - 1);
        GrowsTransitive(w.mem, w2.mem, TablesDown(cfg, q, w2, va, level - 1).0.mem);
      }
    }
  }

  lemma BankHasArena(q: Request, mem: Physical, va: nat)
    requires BanksExist(q, mem) && q.pageSize > 0 && !q.mapping
    ensures HasArena(mem, BankAt(q, va))
  {
    hide ArenaOf, SingleBanks, BankOf;
    var first := RoundDown(q.gfx, q.pageSize);
    var end := RoundUp(q.gfx + q.size, q.pageSize);
    BankIsOneOf(q.banks, first, if end < first then 0 else end - first, va);
  }

  lemma BanksStay(q: Request, mem: Physical, mem': Physical)
    requires BanksExist(q, mem) && Grows(mem, mem')
    ensures BanksExist(q, mem')
  {
  }

  lemma PageVisitOwned(cfg: Config, q: Request, w: Walk, g: Layout, who: Owners, va: nat, size: nat, target: nat, info: PageInfo)
    requires Ready(cfg, q, w.nodes, va) && Sane(w.nodes, w.mem, g, who) && NoOwnedLeaf(cfg, q, w.nodes, who, va) && BanksExist(q, w.mem)
    ensures Kept(w, PageVisit(cfg, q, w, va, size, target, info).w, g, who)
  {
    hide PdeStep, TablesDown, Grown, WellFormed, Span, Sane, ArenaOf, BanksExist, LeafOf;
    RootIsTableSlot(cfg, q.tree, va);
    TablesDownFacts(cfg, q, w, va, cfg.levels - 1);
    TablesDownOwned(cfg, q, w, g, who, va, cfg.levels - 1);
    var (w1, found) := TablesDown(cfg, q, w, va, cfg.levels - 1);
    if found {
      GrownStaysReady(cfg, q, va, w.nodes, w1.nodes);
      BanksStay(q, w.mem, w1.mem);
      if !q.mapping { BankHasArena(q, w1.mem, va); }
      HighTablesAddNoLeaf(cfg, q, w.nodes, w1.nodes, who, va);
      PdeStepOwned(cfg, q, w1, g, who, va, size, BankAt(q, va), target, info);
      GrowsTransitive(w.mem, w1.mem, PdeStep(cfg, q, w1, va, size, BankAt(q, va), target, info).w.mem);
    }
  }

  lemma HighTablesAddNoLeaf(cfg: Config, q: Request, nodes: Forest, nodes': Forest, who: Owners, va: nat)
    requires Ready(cfg, q, nodes, va) && Grown(cfg, q.tree, va, nodes, nodes', None) && NoOwnedLeaf(cfg, q, nodes, who, va)
    requires forall s :: s in nodes' && s !in nodes ==> s.level >= 2
    ensures NoOwnedLeaf(cfg, q, nodes', who, va)
  {
    hide WellFormed, LeafSlot;
    var s := TableSlot(q.tree, 1, va);
    if s in nodes' {
      LeafSlotLevel(cfg, q.tree, nodes'[s].kind, va);
      assert nodes'[s].reserved == nodes[s].reserved;
    }
  }

  // ---- whole walks ----

  ghost predicate NoOwnedLeaves(cfg: Config, q: Request, nodes: Forest, who: Owners, va: nat, size: nat) {
    forall x :: va <= x < va + size ==> NoOwnedLeaf(cfg, q, nodes, who, x)
  }

  lemma LaterPagesUnowned(cfg: Config, q: Request, w: Walk, who: Owners, va: nat, v: Visit, next: nat, size: nat)
    requires Ready(cfg, q, w.nodes, va) && Visited(cfg, q, w, va, v) && v.leaf.Some? && v.pageSize > 0
    requires NoOwnedLeaves(cfg, q, w.nodes, who, next, size) && (size > 0 ==> next == PageEnd(va, v.pageSize))
    ensures NoOwnedLeaves(cfg, q, v.w.nodes, who, next, size)
  {
    hide WellFormed, LeafOf, LeafSize, GrowsOnPath, LeafFits, PageEnd;
    forall x | next <= x < next + size ensures NoOwnedLeaf(cfg, q, v.w.nodes, who, x) {
      if LeafOf(cfg, v.w.nodes, q.tree, x) == v.leaf {
        SameLeafSamePage(cfg, v.w.nodes, q.tree, va, x);
        PageEndAfter(va, v.pageSize);
        PageEndAfter(x, v.pageSize);
        assert false;
      }
      VisitKeepsOthers(cfg, q, w, va, v, q.tree, x);
      assert NoOwnedLeaf(cfg, q, w.nodes, who, x);
    }
  }

  /** Every walk keeps the ownership of the tables' frames. Walks that reserve, clone or expect keep that of all frames;
      a mapping walk does when no leaf in its range owns one. */
  lemma {:induction false} WalkOwned(cfg: Config, q: Request, w: Walk, g: Layout, who: Owners, va: nat, size: nat, target: nat, i: nat)
    requires Sound(cfg, q, w.nodes) && FitsIn(cfg, va, size) && Sane(w.nodes, w.mem, g, who) && BanksExist(q, w.mem)
    requires NoOwnedLeaves(cfg, q, w.nodes, who, va, size)
    ensures Kept(w, WalkFrom(cfg, q, w, va, size, target, i).0, g, who)
    decreases size
  {
    hide PageVisit, WellFormed, Visited, LeafOf, LeafSize, BankAt, FitsIn, PageEnd, Sane, BanksExist;
    if size > 0 && !(q.mode.Clone? && i >= |q.infos|) {
      var v := PageVisit(cfg, q, w, va, size, target, InfoAt(q, i));
      TurnFacts(cfg, q, w, va, size, target, InfoAt(q, i));
      WalkTurn(cfg, q, w, va, size, target, i);
      PageVisitOwned(cfg, q, w, g, who, va, size, target, InfoAt(q, i));
      if v.leaf.Some? {
        var step := PageStep(v.pageSize, va, size);
        var next := Report(v, va, size, BankAt(q, va));
        BanksStay(q, w.mem, v.w.mem);
        LaterPagesUnowned(cfg, q, w, who, va, v, va + step, size - step);
        WalkOwned(cfg, q, next, g, who, va + step, size - step, NextTarget(v, va, size), i + 1);
        GrowsTransitive(w.mem, v.w.mem, WalkFrom(cfg, q, next, va + step, size - step, NextTarget(v, va, size), i + 1).0.mem);
      }
    }
  }

  /** Where every frame is accounted for, each starts on a multiple of its size. */
  lemma OwnedFramesAligned(nodes: Forest, mem: Physical, g: Layout, s: Slot)
    requires Sane(nodes, mem, g, Everyone) && s in nodes && nodes[s].reserved > 0
    ensures nodes[s].phys % nodes[s].reserved == 0
  {
    assert HoldsFrame(nodes, mem, Everyone, s);
  }

  /** Two nodes that own frames in memories of the same kind have disjoint frames. */
  lemma OwnedFramesDisjoint(nodes: Forest, mem: Physical, g: Layout, who: Owners, s: Slot, t: Slot)
    requires Sane(nodes, mem, g, who) && WithinWindows(mem, g) && s in nodes && t in nodes && s != t
    requires Claims(who, nodes[s]) && Claims(who, nodes[t])
    requires (ArenaFor(mem, nodes[s]) == 0) == (ArenaFor(mem, nodes[t]) == 0)
    ensures FrameAllocator.Disjoint(FrameOf(nodes[s]), FrameOf(nodes[t]))
  {
    hide ValidPhysical, AlignedPool, WithinWindows, InUse, ArenaOf, FrameAllocator.Disjoint;
    assert HoldsFrame(nodes, mem, who, s) && HoldsFrame(nodes, mem, who, t) && FramesDiffer(nodes, mem, who, s, t);
    InUseDisjoint(mem, g, ArenaFor(mem, nodes[s]), FrameOf(nodes[s]), ArenaFor(mem, nodes[t]), FrameOf(nodes[t]));
  }
}
