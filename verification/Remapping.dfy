/** Pointing a leaf that owns its frame somewhere else, and freeing it afterwards: which frames stay accounted for. */
module Remapping {
  import opened Wrappers
  import opened Arithmetic
  import opened PageTables
  import opened FrameAllocator
  import opened PhysicalMemory
  import opened WalkModel
  import opened TreeFacts
  import opened WalkLookup
  import opened WalkStream
  import opened WalkStreamed
  import opened FrameOwnership
  import opened Streams
  import opened StreamCoherence
  import opened FreeModel
  import opened FreeFacts
  import opened FreeExact
  import opened FreeResults
  import opened MapOverride
  import opened WalkShape
  import opened Reservations
  import opened System

  /** A mapping walk of bytes inside the one page whose leaf is s. */
  ghost predicate RemapsOnePage(cfg: Config, sys: System, q: Request, s: Slot) {
    && q.mapping && q.mode.Reserve? && q.size > 0
    && LeafOf(cfg, sys.nodes, q.tree, q.gfx) == Some(s)
    && q.gfx % LeafSize(sys.nodes, s) + q.size <= LeafSize(sys.nodes, s)
  }

  /** Where the walk points the leaf. */
  function LandsAt(nodes: Forest, s: Slot, target: nat): nat
    requires s in nodes
  {
    Landing(LeafSize(nodes, s), target)
  }

  /** The forest is as before, but for where s points. */
  ghost predicate OnlyMoved(a: Forest, b: Forest, s: Slot, phys: nat, bank: nat) {
    && b.Keys == a.Keys && s in a && Evolves(a, b, Some(s)) && b[s].phys == phys && b[s].bank == bank
  }

  /** One page's walk takes no frame, gives none back, and moves only the leaf. */
  lemma RemapStep(cfg: Config, g: Layout, sys: System, q: Request, target: nat, s: Slot)
    requires ValidConfig(cfg) && WellFormed(cfg, sys.nodes) && Sane(sys.nodes, sys.mem, g, Tables)
    requires Allowed(cfg, sys, WalkTree(q, target)) && RemapsOnePage(cfg, sys, q, s)
    ensures var sys' := Step(cfg, sys, WalkTree(q, target));
      && sys'.mem == sys.mem && WellFormed(cfg, sys'.nodes) && Sane(sys'.nodes, sys'.mem, g, Tables)
      && OnlyMoved(sys.nodes, sys'.nodes, s, LandsAt(sys.nodes, s, target), q.banks)
  {
    hide WellFormed, LeafOf, LeafSize, BanksExist, FitsIn, Sane, Queued, Commit, PageVisit, WalkFrom, Landing, LandsAt, TablesKept, OnlyMoved;
    var w := WalkMemory(cfg, q, sys.nodes, sys.mem, target).0;
    WalkStep(cfg, g, sys, q, target);
    OnePageWalk(cfg, sys, q, target, s);
    CommitKeepsTree(cfg, g, sys.nodes, w, sys.st, Tables);
    StillMoved(sys.nodes, w.nodes, Step(cfg, sys, WalkTree(q, target)).nodes, s, LandsAt(sys.nodes, s, target), q.banks);
  }

  lemma StillMoved(a: Forest, b: Forest, c: Forest, s: Slot, phys: nat, bank: nat)
    requires OnlyMoved(a, b, s, phys, bank) && c.Keys == b.Keys && Evolves(b, c, None)
    ensures OnlyMoved(a, c, s, phys, bank)
  {
  }

  lemma OnePageWalk(cfg: Config, sys: System, q: Request, target: nat, s: Slot)
    requires ValidConfig(cfg) && WellFormed(cfg, sys.nodes)
    requires Allowed(cfg, sys, WalkTree(q, target)) && RemapsOnePage(cfg, sys, q, s)
    ensures var w := WalkMemory(cfg, q, sys.nodes, sys.mem, target).0;
      w.mem == sys.mem && OnlyMoved(sys.nodes, w.nodes, s, LandsAt(sys.nodes, s, target), q.banks)
  {
    hide WellFormed, LeafOf, LeafSize, BanksExist, FitsIn, PageVisit, WalkFrom, BankAt, Landing, LandsAt, Shaped, VisitReservations, Serve, LeafFits,
         GrowsOnPath, OnlyMoved;
    var w0 := Start(q.tree, sys.nodes, sys.mem);
    var v := PageVisit(cfg, q, w0, q.gfx, q.size, target, InfoAt(q, 0));
    TurnFacts(cfg, q, w0, q.gfx, q.size, target, InfoAt(q, 0));
    WalkTurn(cfg, q, w0, q.gfx, q.size, target, 0);
    PageVisitShape(cfg, q, w0, q.gfx, q.size, target, InfoAt(q, 0));
    VisitServes(cfg, q, w0, q.gfx, q.size, target, InfoAt(q, 0));
    NothingToReserve(cfg, q, sys.nodes, q.gfx);
    ServeNothing(sys.mem);
    VisitMovesLeaf(cfg, q, w0, q.gfx, target, InfoAt(q, 0), v, s);
    var step := PageStep(v.pageSize, q.gfx, q.size);
    assert step == q.size;
    WalkOfNothing(cfg, q, Report(v, q.gfx, q.size, BankAt(q, q.gfx)), q.gfx + step, NextTarget(v, q.gfx, q.size), 1);
  }

  lemma VisitMovesLeaf(cfg: Config, q: Request, w: Walk, va: nat, target: nat, info: PageInfo, v: Visit, s: Slot)
    requires q.pageSize > 0 && q.mapping && ValidConfig(cfg) && WellFormed(cfg, w.nodes)
    requires Shaped(cfg, q, w, va, target, info, v) && Visited(cfg, q, w, va, v) && LeafOf(cfg, w.nodes, q.tree, va) == Some(s)
    requires VisitReservations(cfg, q, w.nodes, va) == [] && Builds(q)
    ensures OnlyMoved(w.nodes, v.w.nodes, s, LandsAt(w.nodes, s, target), q.banks) && v.pageSize == LeafSize(w.nodes, s)
  {
    hide WellFormed, LeafSlot, BankAt, Landing, Span, LeafFits, PathReservations, RootBank;
    var p := TableSlot(q.tree, 1, va);
    PdeKind(cfg, w.nodes, p);
    LeafPageSize(cfg, w.nodes, q.tree, va);
    assert s == PlannedLeaf(cfg, w.nodes, q, va);
    forall x | OnPath(cfg, q.tree, va, 1, x) ensures x in w.nodes { PathIsThere(cfg, q, w.nodes, va, cfg.levels - 1, x.level); }
    forall x | x in v.w.nodes ensures x in w.nodes {}
    forall x | x in w.nodes ensures x in v.w.nodes {}
  }

  lemma {:induction false} PathIsThere(cfg: Config, q: Request, nodes: Forest, va: nat, level: nat, l: nat)
    requires level <= 4 && PathReservations(cfg, q, nodes, va, level) == [] && 1 <= l <= level && TableSlot(q.tree, 1, va) in nodes
    ensures TableSlot(q.tree, l, va) in nodes
    decreases level
  {
    hide RootBank, Span;
    if 2 <= level && l < level { PathIsThere(cfg, q, nodes, va, level - 1, l); }
  }

  // ---- ownership after a remap ----

  /** The place the leaf is moved to holds an aligned block of the leaf's size, in use in the bank's own allocator, and it is
      nobody else's. */
  ghost predicate TakesOver(nodes: Forest, mem: Physical, s: Slot, phys: nat, bank: nat)
    requires s in nodes && nodes[s].reserved > 0
  {
    var b := Block(phys, nodes[s].reserved);
    var k := ArenaOf(|mem|, bank);
    && InUse(mem, k, b) && phys % b.size == 0
    && (forall t :: t in nodes && t != s && nodes[t].reserved > 0 && ArenaFor(mem, nodes[t]) == k ==> FrameOf(nodes[t]) != b)
  }

  lemma MovedOwnedExactly(a: Forest, b: Forest, mem: Physical, g: Layout, s: Slot, phys: nat, bank: nat)
    requires Sane(a, mem, g, Everyone) && OnlyMoved(a, b, s, phys, bank) && a[s].reserved > 0 && !IsTable(a[s].kind)
    ensures Sane(b, mem, g, Everyone) <==> TakesOver(a, mem, s, phys, bank)
  {
    hide ValidPhysical, AlignedPool, InUse, ArenaOf;
    if TakesOver(a, mem, s, phys, bank) {
      forall t | t in b ensures HoldsFrame(b, mem, Everyone, t) { assert HoldsFrame(a, mem, Everyone, t); }
      forall t, u | t in b && u in b ensures FramesDiffer(b, mem, Everyone, t, u) { assert FramesDiffer(a, mem, Everyone, t, u); }
    }
    if Sane(b, mem, g, Everyone) {
      assert HoldsFrame(b, mem, Everyone, s);
      forall t | t in a && t != s && a[t].reserved > 0 && ArenaFor(mem, a[t]) == ArenaOf(|mem|, bank)
        ensures FrameOf(a[t]) != Block(phys, a[s].reserved) {
        assert FramesDiffer(b, mem, Everyone, t, s);
      }
    }
  }

  /** Mapping a page whose leaf owns its frame keeps every frame accounted for if and only if it is pointed at an aligned block
      in use, of the leaf's size and in the bank's own allocator, that is nobody else's. */
  lemma RemapKeepsOwnershipExactly(cfg: Config, g: Layout, sys: System, q: Request, target: nat, s: Slot)
    requires ValidConfig(cfg) && WellFormed(cfg, sys.nodes) && Sane(sys.nodes, sys.mem, g, Everyone)
    requires Allowed(cfg, sys, WalkTree(q, target)) && RemapsOnePage(cfg, sys, q, s) && sys.nodes[s].reserved > 0
    ensures var sys' := Step(cfg, sys, WalkTree(q, target));
      Sane(sys'.nodes, sys'.mem, g, Everyone) <==> TakesOver(sys.nodes, sys.mem, s, LandsAt(sys.nodes, s, target), q.banks)
  {
    hide WellFormed, Owned, ValidPhysical, AlignedPool, LeafOf, LeafSize, BanksExist, FitsIn, OnlyMoved, LandsAt, TakesOver, Step;
    EveryoneIncludesTables(sys.nodes, sys.mem, Everyone);
    RemapStep(cfg, g, sys, q, target, s);
    LeafNoTable(cfg, sys.nodes, q.tree, q.gfx, s);
    MovedOwnedExactly(sys.nodes, Step(cfg, sys, WalkTree(q, target)).nodes, sys.mem, g, s, LandsAt(sys.nodes, s, target), q.banks);
  }

  // ---- and then freed ----

  /** The state after a page is mapped and then freed. */
  function RemapThenFree(cfg: Config, sys: System, q: Request, target: nat): System
    requires cfg.levels <= 5 && q.pageSize > 0
  {
    Step(cfg, Step(cfg, sys, WalkTree(q, target)), FreeRange(q.tree, q.gfx, q.size))
  }

  /** What the free of a one-page range deletes: the page's leaf, and perhaps tables. */
  lemma OnePageFreed(cfg: Config, g: Layout, sys: System, tree: nat, va: nat, size: nat, s: Slot)
    requires ValidConfig(cfg) && WellFormed(cfg, sys.nodes) && ValidPhysical(sys.mem, g)
    requires LeafOf(cfg, sys.nodes, tree, va) == Some(s) && size > 0 && va % LeafSize(sys.nodes, s) + size <= LeafSize(sys.nodes, s)
    ensures var f := FreeMemory(cfg, sys.nodes, sys.mem, tree, va, size).0;
      && Shrunk(sys.nodes, f.nodes) && ReturnsFrames(sys.nodes, sys.mem, f.nodes, f.mem) && ValidPhysical(f.mem, g)
      && s !in f.nodes
      && (forall t :: t in sys.nodes && t !in f.nodes && t != s ==> IsTable(sys.nodes[t].kind))
  {
    hide WellFormed, ValidPhysical, LeafOf, LeafSize, FreeInv, FreeFrom, Shrunk, ReturnsFrames, QueueOk;
    var f0 := Freeing(tree, sys.nodes, sys.mem, [[], [], [], [], []]);
    StartFree(cfg, g, f0);
    forall x | va <= x < va + size ensures LeafOf(cfg, sys.nodes, tree, x) == Some(s) {
      SamePage(va, x - va, LeafSize(sys.nodes, s));
      SamePageSameLeaf(cfg, sys.nodes, tree, va, x);
    }
    FreeStep(cfg, g, sys, tree, va, size);
    var f := FreeMemory(cfg, sys.nodes, sys.mem, tree, va, size).0;
    InvParts(cfg, g, sys.nodes, sys.mem, f);
    FreeClearsRange(cfg, g, sys.nodes, sys.mem, f0, va, size, va, va + size, va);
    if s in f.nodes { SurvivorFound(cfg, sys.nodes, f.nodes, tree, va, s); }
    forall t | t in sys.nodes && t !in f.nodes && t != s ensures IsTable(sys.nodes[t].kind) {
      if !IsTable(sys.nodes[t].kind) { DeletedInRange(cfg, g, sys, tree, va, size, t); }
    }
  }

  lemma SurvivorFound(cfg: Config, a: Forest, b: Forest, tree: nat, x: nat, s: Slot)
    requires ValidConfig(cfg) && WellFormed(cfg, b) && Shrunk(a, b) && LeafOf(cfg, a, tree, x) == Some(s) && s in b
    ensures LeafOf(cfg, b, tree, x) == Some(s)
  {
    hide WellFormed;
    SurvivorKeepsLookup(cfg, a, b, tree, x);
  }

  /** A page's own frame, after the page is mapped and then freed, has been given back if and only if that is where it was
      mapped: otherwise the frame stays taken although nobody stands at it. */
  lemma RemapThenFreeReturnsExactly(cfg: Config, g: Layout, sys: System, q: Request, target: nat, s: Slot)
    requires ValidConfig(cfg) && WellFormed(cfg, sys.nodes) && Sane(sys.nodes, sys.mem, g, Everyone)
    requires Allowed(cfg, sys, WalkTree(q, target)) && RemapsOnePage(cfg, sys, q, s) && sys.nodes[s].reserved > 0
    ensures var sys' := RemapThenFree(cfg, sys, q, target); var k := ArenaFor(sys.mem, sys.nodes[s]);
      && s !in sys'.nodes
      && (!InUse(sys'.mem, k, FrameOf(sys.nodes[s])) <==>
            k == ArenaOf(|sys.mem|, q.banks) && LandsAt(sys.nodes, s, target) == sys.nodes[s].phys)
  {
    hide WellFormed, Owned, ValidPhysical, AlignedPool, LeafOf, LeafSize, BanksExist, FitsIn, LandsAt, InUse, ArenaOf, FreeMemory, FreeCommit, Shrunk, WalkMemory,
         Commit, Available;
    EveryoneIncludesTables(sys.nodes, sys.mem, Everyone);
    RemapStep(cfg, g, sys, q, target, s);
    var sys1 := Step(cfg, sys, WalkTree(q, target));
    MovedLookup(cfg, sys.nodes, sys1.nodes, q.tree, q.gfx, s);
    OnePageFreed(cfg, g, sys1, q.tree, q.gfx, q.size, s);
    var f := FreeMemory(cfg, sys1.nodes, sys1.mem, q.tree, q.gfx, q.size).0;
    var k, b := ArenaFor(sys.mem, sys.nodes[s]), FrameOf(sys.nodes[s]);
    assert InUse(sys.mem, k, b) by { OwnInUse(sys.nodes, sys.mem, s); }
    if Released(sys1.nodes, f.nodes, sys.mem, k, b) {
      var t :| t in sys1.nodes && t !in f.nodes && sys1.nodes[t].reserved > 0 && ArenaFor(sys.mem, sys1.nodes[t]) == k && sys1.nodes[t].phys == b.addr;
      if t != s { OwnFramesApart(sys.nodes, sys.mem, g, s, t); }
    }
    if k == ArenaOf(|sys.mem|, q.banks) && LandsAt(sys.nodes, s, target) == sys.nodes[s].phys {
      ReleasedBy(sys1.nodes, f.nodes, sys.mem, s, b);
    }
  }

  lemma OwnInUse(nodes: Forest, mem: Physical, s: Slot)
    requires Owned(nodes, mem, Everyone) && s in nodes && nodes[s].reserved > 0
    ensures InUse(mem, ArenaFor(mem, nodes[s]), FrameOf(nodes[s]))
  {
    hide InUse, ArenaOf;
    assert HoldsFrame(nodes, mem, Everyone, s);
  }

  /** Two owners in one allocator never stand at one address. */
  lemma OwnFramesApart(nodes: Forest, mem: Physical, g: Layout, s: Slot, t: Slot)
    requires Sane(nodes, mem, g, Everyone) && s in nodes && t in nodes && s != t && nodes[s].reserved > 0 && nodes[t].reserved > 0
    requires ArenaFor(mem, nodes[s]) == ArenaFor(mem, nodes[t])
    ensures nodes[s].phys != nodes[t].phys
  {
    hide InUse, ArenaOf, ValidPhysical, AlignedPool;
    assert HoldsFrame(nodes, mem, Everyone, s) && HoldsFrame(nodes, mem, Everyone, t) && FramesDiffer(nodes, mem, Everyone, s, t);
    if nodes[s].phys == nodes[t].phys { OneBlockAtAddress(mem, g, ArenaFor(mem, nodes[s]), FrameOf(nodes[s]), FrameOf(nodes[t])); }
  }

  /** A leaf that moved is still the leaf of its addresses. */
  lemma MovedLookup(cfg: Config, a: Forest, b: Forest, tree: nat, x: nat, s: Slot)
    requires LeafOf(cfg, a, tree, x) == Some(s) && b.Keys == a.Keys && Evolves(a, b, Some(s))
    ensures LeafOf(cfg, b, tree, x) == Some(s) && LeafSize(b, s) == LeafSize(a, s)
  {
    hide LeafSlot;
  }

  /** A page mapped onto the frame of another leaf takes that frame with it when it is freed: the other leaf still points there,
      but the block is free to be handed out again. */
  lemma RemapThenFreeTakesFrame(cfg: Config, g: Layout, sys: System, q: Request, target: nat, s: Slot, u: Slot)
    requires ValidConfig(cfg) && WellFormed(cfg, sys.nodes) && Sane(sys.nodes, sys.mem, g, Everyone)
    requires Allowed(cfg, sys, WalkTree(q, target)) && RemapsOnePage(cfg, sys, q, s) && sys.nodes[s].reserved > 0
    requires u in sys.nodes && u != s && !IsTable(sys.nodes[u].kind) && sys.nodes[u].reserved > 0
    requires ArenaFor(sys.mem, sys.nodes[u]) == ArenaOf(|sys.mem|, q.banks) && sys.nodes[u].phys == LandsAt(sys.nodes, s, target)
    ensures var sys' := RemapThenFree(cfg, sys, q, target); var k := ArenaFor(sys.mem, sys.nodes[u]);
      && u in sys'.nodes && sys'.nodes[u].phys == sys.nodes[u].phys && sys'.nodes[u].bank == sys.nodes[u].bank
      && !InUse(sys'.mem, k, FrameOf(sys.nodes[u])) && Available(sys'.mem, k, FrameOf(sys.nodes[u]))
      && !Sane(sys'.nodes, sys'.mem, g, Everyone)
  {
    hide WellFormed, Owned, ValidPhysical, AlignedPool, LeafOf, LeafSize, BanksExist, FitsIn, LandsAt, InUse, ArenaOf, FreeMemory, FreeCommit, WalkMemory,
         Commit, Available;
    EveryoneIncludesTables(sys.nodes, sys.mem, Everyone);
    RemapStep(cfg, g, sys, q, target, s);
    var sys1 := Step(cfg, sys, WalkTree(q, target));
    MovedLookup(cfg, sys.nodes, sys1.nodes, q.tree, q.gfx, s);
    OnePageFreed(cfg, g, sys1, q.tree, q.gfx, q.size, s);
    var f := FreeMemory(cfg, sys1.nodes, sys1.mem, q.tree, q.gfx, q.size).0;
    var sys' := RemapThenFree(cfg, sys, q, target);
    var k, b := ArenaFor(sys.mem, sys.nodes[u]), FrameOf(sys.nodes[u]);
    OwnInUse(sys.nodes, sys.mem, u);
    ReleasedBy(sys1.nodes, f.nodes, sys.mem, s, b);
    KeptNode(sys1.nodes, f.nodes, u);
    assert f.nodes[u].reserved == sys.nodes[u].reserved;
    SameLength(sys.mem, f.mem);
    if Sane(sys'.nodes, sys'.mem, g, Everyone) { OwnInUse(sys'.nodes, sys'.mem, u); }
  }

  lemma SameLength(a: Physical, b: Physical)
    requires Grows(a, b)
    ensures |a| == |b|
  {
  }
}
