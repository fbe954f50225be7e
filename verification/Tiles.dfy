/** The manager's calls go to every tile: tile 0 reserves, the others clone; all map and free alike. */
module Tiles {
  import opened Wrappers
  import opened Arithmetic
  import opened PageTables
  import FrameAllocator
  import opened PhysicalMemory
  import opened WalkModel
  import opened TreeFacts
  import opened WalkLookup
  import opened WalkStream
  import opened WalkStreamed
  import opened FrameOwnership
  import opened Streams
  import opened StreamCoherence
  import opened FreeModel
  import opened FreeFacts
  import opened FreeExact
  import opened System
  import opened WalkShape
  import opened Reservations
  import opened Lockstep
  import opened LockstepFree

  /** writeMemory2, mapGpuVa2 and freeMemory, whose tree is set tile by tile, and calls that concern no tree: reserving physical
      memory and the two stream flags. */
  datatype Call = Write(q: Request) | Map(q: Request, target: nat) | Free(va: nat, size: nat) | Other(op: Op)

  predicate CallFits(call: Call) {
    match call
    case Write(q) => q.pageSize > 0 && q.mode.Reserve? && !q.mapping
    case Map(q, _) => q.pageSize > 0 && q.mode.Reserve? && q.mapping
    case Free(_, _) => true
    case Other(op) => op.ReserveBlock? || op.PauseAubFileStream? || op.BlockMemWritesViaTbxStream?
  }

  function LeadOp(call: Call, tile: nat): Op {
    match call
    case Write(q) => WalkTree(q.(tree := tile), 0)
    case Map(q, target) => WalkTree(q.(tree := tile), target)
    case Free(va, size) => FreeRange(tile, va, size)
    case Other(op) => op
  }

  /** The pages tile 0 reports, which the others are given to clone. */
  function LeadPages(cfg: Config, sys: System, call: Call, tile: nat): seq<PageInfo>
    requires cfg.levels <= 5 && CallFits(call)
  {
    match call
    case Write(q) => WalkMemory(cfg, q.(tree := tile), sys.nodes, sys.mem, 0).0.entries
    case _ => []
  }

  function FollowOp(call: Call, infos: seq<PageInfo>, tile: nat): Op {
    match call
    case Write(q) => WalkTree(q.(tree := tile, mode := Clone, infos := infos), 0)
    case _ => LeadOp(call, tile)
  }

  function FollowOps(call: Call, infos: seq<PageInfo>, tiles: seq<nat>): (r: seq<Op>)
    requires CallFits(call)
    ensures forall op :: op in r && op.WalkTree? ==> op.q.pageSize > 0
  {
    if tiles == [] || call.Other? then [] else [FollowOp(call, infos, tiles[0])] + FollowOps(call, infos, tiles[1..])
  }

  /** The stream operations one call amounts to. */
  function Ops(cfg: Config, sys: System, tiles: seq<nat>, call: Call): (r: seq<Op>)
    requires cfg.levels <= 5 && CallFits(call) && |tiles| > 0
    ensures forall op :: op in r && op.WalkTree? ==> op.q.pageSize > 0
  {
    [LeadOp(call, tiles[0])] + FollowOps(call, LeadPages(cfg, sys, call, tiles[0]), tiles[1..])
  }

  predicate Distinct(tiles: seq<nat>) {
    forall i, j :: 0 <= i < j < |tiles| ==> tiles[i] != tiles[j]
  }

  /** The tables are well formed and own their frames, and no misaligned frame is waiting to be handed out. */
  ghost predicate Sound0(cfg: Config, g: Layout, sys: System) {
    ValidConfig(cfg) && WellFormed(cfg, sys.nodes) && Sane(sys.nodes, sys.mem, g, Tables) && AlignedPool(sys.mem)
  }

  /** What freeing the range gives back is aligned to its size. */
  ghost predicate FreesAligned(cfg: Config, nodes: Forest, mem: Physical, tree: nat, va: nat, size: nat) {
    forall x :: va <= x < va + size ==> LeafFreesAligned(cfg, nodes, mem, tree, x)
  }

  ghost predicate LeafFreesAligned(cfg: Config, nodes: Forest, mem: Physical, tree: nat, x: nat) {
    LeafOf(cfg, nodes, tree, x).Some? && nodes[LeafOf(cfg, nodes, tree, x).value].reserved > 0 ==>
      var n := nodes[LeafOf(cfg, nodes, tree, x).value];
      forall b :: InUse(mem, ArenaFor(mem, n), b) && b.addr == n.phys ==> FrameAllocator.PageAligned(b)
  }

  /** Mappings of anything over anything, on any stream; frees that take no table's frame and give back aligned blocks. */
  ghost predicate TileLegal(cfg: Config, sys: System, op: Op) {
    TableSafe(cfg, sys, op) && (op.FreeRange? ==> FreesAligned(cfg, sys.nodes, sys.mem, op.tree, op.va, op.size))
  }

  ghost predicate TileRun(cfg: Config, sys: System, ops: seq<Op>)
    requires cfg.levels <= 5 && forall op :: op in ops && op.WalkTree? ==> op.q.pageSize > 0
    decreases |ops|
  {
    ops == [] || (TileLegal(cfg, sys, ops[0]) && TileRun(cfg, Step(cfg, sys, ops[0]), ops[1..]))
  }

  /** All tiles are copies of tile 0, and only tile 0 owns pages. */
  ghost predicate TilesOk(cfg: Config, g: Layout, sys: System, tiles: seq<nat>) {
    && Sound0(cfg, g, sys) && |tiles| > 0 && Distinct(tiles)
    && (forall t :: t in tiles ==> Root(cfg, t) in sys.nodes && Twin(sys.nodes, tiles[0], sys.nodes, t))
    && (forall t :: t in tiles[1..] ==> OwnsNoLeaf(sys.nodes, t))
  }

  // ---- what one stream operation leaves alone ----

  /** The operation's own tree. */
  predicate Touches(op: Op, t: nat) {
    match op
    case WalkTree(q, _) => q.tree == t
    case FreeRange(tree, _, _) => tree == t
    case _ => false
  }

  ghost predicate Untouched(a: Forest, b: Forest, u: nat) {
    Twin(a, u, b, u) && (OwnsNoLeaf(a, u) ==> OwnsNoLeaf(b, u))
  }

  lemma CommitLeavesAll(a: Forest, b: Forest, u: nat)
    requires b.Keys == a.Keys && forall s :: s in a ==> b[s] == a[s].(pending := b[s].pending)
    ensures Twin(a, u, b, u) && (OwnsNoLeaf(a, u) ==> OwnsNoLeaf(b, u))
  {
  }

  lemma WalkStepNodes(cfg: Config, g: Layout, sys: System, q: Request, target: nat)
    requires Sound0(cfg, g, sys) && Allowed(cfg, sys, WalkTree(q, target))
    ensures var w := WalkMemory(cfg, q, sys.nodes, sys.mem, target).0; var b := Step(cfg, sys, WalkTree(q, target)).nodes;
      b.Keys == w.nodes.Keys && forall s :: s in w.nodes ==> b[s] == w.nodes[s].(pending := b[s].pending)
  {
    hide WellFormed, Owned, ValidPhysical, AlignedPool, Queued, Commit, WalkMemory, BanksExist, FitsIn, TablesKept;
    WalkStep(cfg, g, sys, q, target);
    CommitClears(cfg, sys.nodes, sys.st, WalkMemory(cfg, q, sys.nodes, sys.mem, target).0);
  }

  lemma WalkStepLeavesOthers(cfg: Config, g: Layout, sys: System, q: Request, target: nat, u: nat)
    requires Sound0(cfg, g, sys) && Allowed(cfg, sys, WalkTree(q, target)) && u != q.tree
    ensures Untouched(sys.nodes, Step(cfg, sys, WalkTree(q, target)).nodes, u)
  {
    hide WellFormed, Owned, ValidPhysical, AlignedPool, WalkFrom, BanksExist, FitsIn, Twin, OwnsNoLeaf, Step;
    var w := WalkMemory(cfg, q, sys.nodes, sys.mem, target).0;
    var b := Step(cfg, sys, WalkTree(q, target)).nodes;
    WalkStepNodes(cfg, g, sys, q, target);
    WalkLeavesOthers(cfg, q, Start(q.tree, sys.nodes, sys.mem), q.gfx, q.size, target, 0, u);
    CommitLeavesAll(w.nodes, b, u);
    TwinTransitive(sys.nodes, u, w.nodes, u, b, u);
    StillOwnsNone(sys.nodes, w.nodes, u);
  }

  lemma StillOwnsNone(a: Forest, b: Forest, u: nat)
    requires Twin(a, u, b, u) && forall s :: s in b && s.tree == u ==> s in a && b[s].reserved == a[s].reserved
    ensures OwnsNoLeaf(a, u) ==> OwnsNoLeaf(b, u)
  {
    forall s | s in b && s.tree == u ensures Alike(NodeAt(a, s), NodeAt(b, s)) { TwinAt(a, u, b, u, s, s); }
  }

  lemma FreeStepLeavesOthers(cfg: Config, g: Layout, sys: System, tree: nat, va: nat, size: nat, u: nat)
    requires Sound0(cfg, g, sys) && u != tree
    ensures Untouched(sys.nodes, Step(cfg, sys, FreeRange(tree, va, size)).nodes, u)
  {
    hide WellFormed, Owned, ValidPhysical, AlignedPool, FreeMemory, Mapped, Twin, FreeInv, FreeCommit, Shrunk, OwnsNoLeaf, QueueOk, ReturnsFrames;
    var f := FreeMemory(cfg, sys.nodes, sys.mem, tree, va, size).0;
    FreeMemoryLeavesOthers(cfg, g, sys, tree, va, size, u);
    FreeStep(cfg, g, sys, tree, va, size);
    InvParts(cfg, g, sys.nodes, sys.mem, f);
    ShrunkOwnsNone(sys.nodes, f.nodes, u);
  }

  lemma FreeMemoryLeavesOthers(cfg: Config, g: Layout, sys: System, tree: nat, va: nat, size: nat, u: nat)
    requires Sound0(cfg, g, sys) && u != tree
    ensures Twin(sys.nodes, u, FreeMemory(cfg, sys.nodes, sys.mem, tree, va, size).0.nodes, u)
  {
    hide WellFormed, Owned, ValidPhysical, AlignedPool, FreeFrom, Twin, FreeInv;
    var f0 := Freeing(tree, sys.nodes, sys.mem, [[], [], [], [], []]);
    StartFree(cfg, g, f0);
    FreeLeavesOthers(cfg, g, sys.nodes, sys.mem, f0, va, size, va, va + size, u);
  }

  lemma ShrunkOwnsNone(a: Forest, b: Forest, u: nat)
    requires Shrunk(a, b)
    ensures OwnsNoLeaf(a, u) ==> OwnsNoLeaf(b, u)
  {
  }

  lemma TileAllows(cfg: Config, sys: System, op: Op)
    requires TileLegal(cfg, sys, op)
    ensures Allowed(cfg, sys, op) && TableSafe(cfg, sys, op)
  {
    hide Allowed, SparesTables, FreesAligned;
  }

  lemma StepLeavesOthers(cfg: Config, g: Layout, sys: System, op: Op, t: nat, u: nat)
    requires Sound0(cfg, g, sys) && TileLegal(cfg, sys, op) && Touches(op, t) && u != t
    ensures Untouched(sys.nodes, Step(cfg, sys, op).nodes, u)
  {
    hide Sound0, TileLegal, Allowed, Untouched, Step;
    TileAllows(cfg, sys, op);
    match op {
      case WalkTree(q, target) => WalkStepLeavesOthers(cfg, g, sys, q, target, u);
      case FreeRange(tree, va, size) => FreeStepLeavesOthers(cfg, g, sys, tree, va, size, u);
      case _ =>
    }
  }

  lemma FreeKeepsPool(cfg: Config, g: Layout, sys: System, tree: nat, va: nat, size: nat)
    requires Sound0(cfg, g, sys) && FreesAligned(cfg, sys.nodes, sys.mem, tree, va, size)
    ensures AlignedPool(FreeMemory(cfg, sys.nodes, sys.mem, tree, va, size).0.mem)
  {
    hide WellFormed, FreeMemory, FreeInv, ReturnsFrames, QueueOk, Shrunk, ValidPhysical, AlignedPool, Owned, LeafOf, ArenaFor, InUse;
    FreeStep(cfg, g, sys, tree, va, size);
    var f := FreeMemory(cfg, sys.nodes, sys.mem, tree, va, size).0;
    InvParts(cfg, g, sys.nodes, sys.mem, f);
    forall i, b | InUse(sys.mem, i, b) && Released(sys.nodes, f.nodes, sys.mem, i, b) ensures FrameAllocator.PageAligned(b) {
      var s :| s in sys.nodes && s !in f.nodes && sys.nodes[s].reserved > 0 && ArenaFor(sys.mem, sys.nodes[s]) == i && sys.nodes[s].phys == b.addr;
      if IsTable(sys.nodes[s].kind) {
        TableBlock(sys.nodes, sys.mem, g, s, b);
      } else {
        DeletedInRange(cfg, g, sys, tree, va, size, s);
        var x :| va <= x < va + size && LeafOf(cfg, sys.nodes, tree, x) == Some(s);
        assert LeafFreesAligned(cfg, sys.nodes, sys.mem, tree, x);
      }
    }
    PoolAfterFree(sys.nodes, sys.mem, f.nodes, f.mem);
  }

  lemma TableBlock(nodes: Forest, mem: Physical, g: Layout, s: Slot, b: FrameAllocator.Block)
    requires Sane(nodes, mem, g, Tables) && s in nodes && IsTable(nodes[s].kind)
    requires InUse(mem, ArenaFor(mem, nodes[s]), b) && b.addr == nodes[s].phys
    ensures FrameAllocator.PageAligned(b)
  {
    hide ValidPhysical, InUse, ArenaFor;
    assert HoldsFrame(nodes, mem, Tables, s);
    OneBlockAtAddress(mem, g, ArenaFor(mem, nodes[s]), FrameOf(nodes[s]), b);
  }

  /** Leaves that were never moved out of their frames give back aligned blocks. */
  lemma OwnFramesFreeAligned(cfg: Config, g: Layout, nodes: Forest, mem: Physical, tree: nat, x: nat)
    requires WellFormed(cfg, nodes) && Sane(nodes, mem, g, Everyone)
    ensures LeafFreesAligned(cfg, nodes, mem, tree, x)
  {
    hide ValidPhysical, InUse, ArenaFor, LeafOf, WellFormed, AlignedPool;
    if LeafOf(cfg, nodes, tree, x).Some? && nodes[LeafOf(cfg, nodes, tree, x).value].reserved > 0 {
      var s := LeafOf(cfg, nodes, tree, x).value;
      assert HoldsFrame(nodes, mem, Everyone, s);
      forall b | InUse(mem, ArenaFor(mem, nodes[s]), b) && b.addr == nodes[s].phys ensures FrameAllocator.PageAligned(b) {
        OneBlockAtAddress(mem, g, ArenaFor(mem, nodes[s]), FrameOf(nodes[s]), b);
      }
    }
  }

  lemma StepKeepsPool(cfg: Config, g: Layout, sys: System, op: Op)
    requires Sound0(cfg, g, sys) && TileLegal(cfg, sys, op) && (op.WalkTree? ==> Builds(op.q))
    ensures AlignedPool(Step(cfg, sys, op).mem)
  {
    hide WellFormed, Owned, ValidPhysical, AlignedPool, WalkFrom, FreeMemory, Commit, FreeCommit, PhysicalMemory.Reserve, BanksExist, FitsIn;
    match op {
      case NewTree(_, bank) => ReserveKeepsPool(sys.mem, bank, PAGE_4KB, PAGE_4KB);
      case ReserveBlock(bank, size, alignment) => ReserveKeepsPool(sys.mem, bank, size, alignment);
      case WalkTree(q, target) => WalkKeepsPool(cfg, q, Start(q.tree, sys.nodes, sys.mem), g, q.gfx, q.size, target, 0);
      case FreeRange(tree, va, size) => FreeKeepsPool(cfg, g, sys, tree, va, size);
      case _ =>
    }
  }

  /** Roots stay, the state stays sound, and the allocators only grow. */
  lemma StepKeepsSound(cfg: Config, g: Layout, sys: System, op: Op, t: nat)
    requires Sound0(cfg, g, sys) && TileLegal(cfg, sys, op) && Touches(op, t) && (op.WalkTree? ==> Builds(op.q))
    ensures var sys' := Step(cfg, sys, op);
      && Sound0(cfg, g, sys') && Grows(sys.mem, sys'.mem)
      && (forall u :: Root(cfg, u) in sys.nodes ==> Root(cfg, u) in sys'.nodes)
  {
    hide WellFormed, Owned, ValidPhysical, AlignedPool, Step, BanksExist, FitsIn, Mapped;
    StepGrows(cfg, g, sys, op);
    StepKeepsRoots(cfg, g, sys, op, t);
    StepKeepsPool(cfg, g, sys, op);
  }

  lemma StepKeepsRoots(cfg: Config, g: Layout, sys: System, op: Op, t: nat)
    requires Sound0(cfg, g, sys) && TileLegal(cfg, sys, op) && Touches(op, t)
    ensures forall u :: Root(cfg, u) in sys.nodes ==> Root(cfg, u) in Step(cfg, sys, op).nodes
  {
    hide WellFormed, Owned, ValidPhysical, AlignedPool, WalkFrom, BanksExist, FitsIn, Commit, FreeMemory, Mapped, FreeCommit, FreeInv;
    match op {
      case WalkTree(q, target) =>
        WalkOnlyAdds(cfg, q, Start(q.tree, sys.nodes, sys.mem), q.gfx, q.size, target, 0);
        WalkStepNodes(cfg, g, sys, q, target);
      case FreeRange(tree, va, size) =>
        FreeStep(cfg, g, sys, tree, va, size);
        var f := FreeMemory(cfg, sys.nodes, sys.mem, tree, va, size).0;
        InvParts(cfg, g, sys.nodes, sys.mem, f);
        HighStays(cfg, sys.nodes, f);
      case _ =>
    }
  }

  lemma HighStays(cfg: Config, n0: Forest, f: Freeing)
    requires QueueOk(cfg, n0, f)
    ensures forall s :: s in n0 && s.level >= 3 ==> s in f.nodes
  {
    hide Last, EntryOf, EntryAddress;
  }

  // ---- one follower ----

  /** The leader's call and the state it found; `infos` is what it reported. */
  ghost predicate Led(cfg: Config, g: Layout, sys0: System, call: Call, t: nat, infos: seq<PageInfo>) {
    && Sound0(cfg, g, sys0) && CallFits(call) && !call.Other? && TileLegal(cfg, sys0, LeadOp(call, t)) && infos == LeadPages(cfg, sys0, call, t)
  }

  lemma FollowerIsLegal(cfg: Config, g: Layout, sys0: System, call: Call, t: nat, infos: seq<PageInfo>, sys: System, r: nat)
    requires Led(cfg, g, sys0, call, t, infos) && Sound0(cfg, g, sys) && Root(cfg, r) in sys.nodes
    requires Twin(sys0.nodes, t, sys.nodes, r) && OwnsNoLeaf(sys.nodes, r) && Grows(sys0.mem, sys.mem)
    ensures TileLegal(cfg, sys, FollowOp(call, infos, r))
  {
    hide WellFormed, Owned, ValidPhysical, AlignedPool, FitsIn, Twin, OwnsNoLeaf, LeadPages, LeafOf;
    match FollowOp(call, infos, r) {
      case WalkTree(q, target) =>
        SameBanks(call.q.(tree := t), q, sys0.mem, sys.mem);
      case FreeRange(tree, va, size) =>
        forall x | LeafOf(cfg, sys.nodes, r, x).Some? ensures sys.nodes[LeafOf(cfg, sys.nodes, r, x).value].reserved == 0 {
          BorrowedLeaf(cfg, sys.nodes, r, x);
        }
      case _ =>
    }
  }

  lemma SameBanks(qA: Request, qB: Request, mem: Physical, mem': Physical)
    requires BanksExist(qA, mem) && Grows(mem, mem') && qB.banks == qA.banks
    ensures BanksExist(qB, mem')
  {
    BanksStay(qA, mem, mem');
  }

  lemma FollowerWalks(cfg: Config, g: Layout, sys0: System, qA: Request, t: nat, sys: System, qB: Request, r: nat, target: nat)
    requires Sound0(cfg, g, sys0) && Allowed(cfg, sys0, WalkTree(qA, target)) && Sound0(cfg, g, sys) && Allowed(cfg, sys, WalkTree(qB, target))
    requires Twin(sys0.nodes, t, sys.nodes, r) && qA.tree == t && qB.tree == r && Follows(qA, qB)
    requires qB.mode.Clone? ==> qB.infos == WalkMemory(cfg, qA, sys0.nodes, sys0.mem, target).0.entries
    requires OwnsNoLeaf(sys.nodes, r)
    ensures WalkMemory(cfg, qB, sys.nodes, sys.mem, target).1 == Completed
    ensures Twin(Step(cfg, sys0, WalkTree(qA, target)).nodes, t, Step(cfg, sys, WalkTree(qB, target)).nodes, r)
    ensures OwnsNoLeaf(Step(cfg, sys, WalkTree(qB, target)).nodes, r)
  {
    hide WellFormed, Owned, ValidPhysical, AlignedPool, WalkFrom, BanksExist, FitsIn, Twin, OwnsNoLeaf, Step;
    var wA, wB := Start(t, sys0.nodes, sys0.mem), Start(r, sys.nodes, sys.mem);
    WalkTwin(cfg, g, qA, qB, wA, wB, qA.gfx, qA.size, target, 0);
    WalkBorrows(cfg, qB, wB, qB.gfx, qB.size, target, 0);
    var a, b := WalkMemory(cfg, qA, sys0.nodes, sys0.mem, target).0.nodes, WalkMemory(cfg, qB, sys.nodes, sys.mem, target).0.nodes;
    var a', b' := Step(cfg, sys0, WalkTree(qA, target)).nodes, Step(cfg, sys, WalkTree(qB, target)).nodes;
    WalkStepNodes(cfg, g, sys0, qA, target);
    WalkStepNodes(cfg, g, sys, qB, target);
    CommitLeavesAll(a, a', t);
    CommitLeavesAll(b, b', r);
    TwinSymmetric(a, t, a', t);
    TwinTransitive(a', t, a, t, b, r);
    TwinTransitive(a', t, b, r, b', r);
  }

  lemma FollowerFrees(cfg: Config, g: Layout, sys0: System, t: nat, sys: System, r: nat, va: nat, size: nat)
    requires Sound0(cfg, g, sys0) && Sound0(cfg, g, sys) && Twin(sys0.nodes, t, sys.nodes, r) && OwnsNoLeaf(sys.nodes, r)
    ensures Twin(Step(cfg, sys0, FreeRange(t, va, size)).nodes, t, Step(cfg, sys, FreeRange(r, va, size)).nodes, r)
    ensures OwnsNoLeaf(Step(cfg, sys, FreeRange(r, va, size)).nodes, r)
  {
    hide WellFormed, Owned, ValidPhysical, AlignedPool, FreeFrom, Twin, FreeInv, FreeCommit;
    var fA, fB := Freeing(t, sys0.nodes, sys0.mem, [[], [], [], [], []]), Freeing(r, sys.nodes, sys.mem, [[], [], [], [], []]);
    StartFree(cfg, g, fA);
    StartFree(cfg, g, fB);
    FreeTwin(cfg, g, sys0.nodes, sys0.mem, fA, sys.nodes, sys.mem, fB, va, size, va, va + size);
    FreeStep(cfg, g, sys, r, va, size);
    InvParts(cfg, g, sys.nodes, sys.mem, FreeMemory(cfg, sys.nodes, sys.mem, r, va, size).0);
  }

  /** A follower's operation is legal, its clone never runs out of pages, and it ends up like the leader. */
  lemma FollowStep(cfg: Config, g: Layout, sys0: System, call: Call, t: nat, infos: seq<PageInfo>, sys: System, r: nat)
    requires Led(cfg, g, sys0, call, t, infos) && Sound0(cfg, g, sys) && Root(cfg, r) in sys.nodes && r != t
    requires Twin(sys0.nodes, t, sys.nodes, r) && OwnsNoLeaf(sys.nodes, r) && Grows(sys0.mem, sys.mem)
    ensures var op := FollowOp(call, infos, r);
      && TileLegal(cfg, sys, op) && Touches(op, r) && (op.WalkTree? ==> Builds(op.q))
      && Twin(Step(cfg, sys0, LeadOp(call, t)).nodes, t, Step(cfg, sys, op).nodes, r)
      && OwnsNoLeaf(Step(cfg, sys, op).nodes, r)
      && (op.WalkTree? ==> WalkMemory(cfg, op.q, sys.nodes, sys.mem, op.target).1 == Completed)
  {
    hide Sound0, TileLegal, Allowed, Twin, OwnsNoLeaf, Step, WalkMemory, FitsIn;
    FollowerIsLegal(cfg, g, sys0, call, t, infos, sys, r);
    TileAllows(cfg, sys0, LeadOp(call, t));
    TileAllows(cfg, sys, FollowOp(call, infos, r));
    match call {
      case Write(q) =>
        FollowerWalks(cfg, g, sys0, q.(tree := t), t, sys, q.(tree := r, mode := Clone, infos := infos), r, 0);
      case Map(q, target) =>
        FollowerWalks(cfg, g, sys0, q.(tree := t), t, sys, q.(tree := r), r, target);
      case Free(va, size) =>
        FollowerFrees(cfg, g, sys0, t, sys, r, va, size);
    }
  }

  // ---- all tiles ----

  /** Between tiles: `done` are like the leader after its call, `rest` like the leader before it. */
  ghost predicate Halfway(cfg: Config, g: Layout, sys0: System, call: Call, t: nat, sys: System, done: seq<nat>, rest: seq<nat>) {
    && Sound0(cfg, g, sys) && Grows(sys0.mem, sys.mem)
    && (forall r :: r in done + rest ==> Root(cfg, r) in sys.nodes)
    && (forall r :: r in done ==> Twin(LeadForest(cfg, sys0, call, t), t, sys.nodes, r))
    && (forall r :: r in done && r != t ==> OwnsNoLeaf(sys.nodes, r))
    && (forall r :: r in rest ==> Twin(sys0.nodes, t, sys.nodes, r) && OwnsNoLeaf(sys.nodes, r) && r != t && r !in done)
    && Distinct(rest)
  }

  ghost function LeadForest(cfg: Config, sys0: System, call: Call, t: nat): Forest {
    if cfg.levels <= 5 && CallFits(call) then Step(cfg, sys0, LeadOp(call, t)).nodes else sys0.nodes
  }

  lemma OneFollower(cfg: Config, g: Layout, sys0: System, call: Call, t: nat, infos: seq<PageInfo>, sys: System, done: seq<nat>, rest: seq<nat>)
    requires Led(cfg, g, sys0, call, t, infos) && Halfway(cfg, g, sys0, call, t, sys, done, rest) && rest != []
    ensures var op := FollowOp(call, infos, rest[0]);
      && TileLegal(cfg, sys, op)
      && Halfway(cfg, g, sys0, call, t, Step(cfg, sys, op), done + [rest[0]], rest[1..])
      && (op.WalkTree? ==> WalkMemory(cfg, op.q, sys.nodes, sys.mem, op.target).1 == Completed)
  {
    hide Sound0, TileLegal, Twin, OwnsNoLeaf, Step, WalkMemory;
    var r := rest[0];
    SoundConfig(cfg, g, sys0);
    assert r in done + rest;
    FollowStep(cfg, g, sys0, call, t, infos, sys, r);
    var op := FollowOp(call, infos, r);
    var sys' := Step(cfg, sys, op);
    StepKeepsSound(cfg, g, sys, op, r);
    GrowsTransitive(sys0.mem, sys.mem, sys'.mem);
    forall u | u in done || u in rest[1..] ensures Untouched(sys.nodes, sys'.nodes, u) {
      StepLeavesOthers(cfg, g, sys, op, r, u);
    }
    assert done + [r] + rest[1..] == done + rest;
    forall u | u in done
      ensures Twin(LeadForest(cfg, sys0, call, t), t, sys'.nodes, u) && (u != t ==> OwnsNoLeaf(sys'.nodes, u)) {
      assert Untouched(sys.nodes, sys'.nodes, u);
      TwinTransitive(LeadForest(cfg, sys0, call, t), t, sys.nodes, u, sys'.nodes, u);
    }
    forall u | u in rest[1..]
      ensures Twin(sys0.nodes, t, sys'.nodes, u) && OwnsNoLeaf(sys'.nodes, u) && u !in done + [r] {
      assert Untouched(sys.nodes, sys'.nodes, u);
      TwinTransitive(sys0.nodes, t, sys.nodes, u, sys'.nodes, u);
    }
  }

  /** No clone in the list runs out of pages. */
  ghost predicate ClonesComplete(cfg: Config, sys: System, ops: seq<Op>)
    requires cfg.levels <= 5 && forall op :: op in ops && op.WalkTree? ==> op.q.pageSize > 0
    decreases |ops|
  {
    ops == [] ||
    ((ops[0].WalkTree? ==> WalkMemory(cfg, ops[0].q, sys.nodes, sys.mem, ops[0].target).1 == Completed)
     && ClonesComplete(cfg, Step(cfg, sys, ops[0]), ops[1..]))
  }

  lemma {:induction false} FollowAll(cfg: Config, g: Layout, sys0: System, call: Call, t: nat, infos: seq<PageInfo>, sys: System,
                                     done: seq<nat>, rest: seq<nat>)
    requires Led(cfg, g, sys0, call, t, infos) && Halfway(cfg, g, sys0, call, t, sys, done, rest)
    ensures var ops := FollowOps(call, infos, rest);
      && TileRun(cfg, sys, ops) && ClonesComplete(cfg, sys, ops)
      && Halfway(cfg, g, sys0, call, t, RunOps(cfg, sys, ops), done + rest, [])
    decreases |rest|
  {
    hide Led, Halfway, TileLegal, Step, WalkMemory;
    if rest == [] {
      assert done + rest == done;
    } else {
      LedLevels(cfg, g, sys0, call, t, infos);
      OneFollower(cfg, g, sys0, call, t, infos, sys, done, rest);
      FollowAll(cfg, g, sys0, call, t, infos, Step(cfg, sys, FollowOp(call, infos, rest[0])), done + [rest[0]], rest[1..]);
      assert done + [rest[0]] + rest[1..] == done + rest;
      var ops := FollowOps(call, infos, rest);
      assert ops[1..] == FollowOps(call, infos, rest[1..]);
    }
  }

  lemma LedLevels(cfg: Config, g: Layout, sys0: System, call: Call, t: nat, infos: seq<PageInfo>)
    requires Led(cfg, g, sys0, call, t, infos)
    ensures cfg.levels <= 5 && CallFits(call) && !call.Other?
  {
    hide Sound0, TileLegal, LeadPages;
    assert ValidConfig(cfg) by { SoundConfig(cfg, g, sys0); }
  }

  lemma SoundConfig(cfg: Config, g: Layout, sys: System)
    requires Sound0(cfg, g, sys)
    ensures ValidConfig(cfg)
  {
  }

  lemma LeaderStarts(cfg: Config, g: Layout, sys: System, tiles: seq<nat>, call: Call)
    requires TilesOk(cfg, g, sys, tiles) && CallFits(call) && !call.Other? && TileLegal(cfg, sys, LeadOp(call, tiles[0]))
    ensures Halfway(cfg, g, sys, call, tiles[0], Step(cfg, sys, LeadOp(call, tiles[0])), [tiles[0]], tiles[1..])
  {
    hide Sound0, TileLegal, Twin, OwnsNoLeaf, Step;
    var t := tiles[0];
    SoundConfig(cfg, g, sys);
    var op := LeadOp(call, t);
    var sys' := Step(cfg, sys, op);
    StepKeepsSound(cfg, g, sys, op, t);
    TwinReflexive(sys'.nodes, t);
    forall r | r in tiles[1..] ensures Twin(sys.nodes, t, sys'.nodes, r) && OwnsNoLeaf(sys'.nodes, r) && r != t {
      StepLeavesOthers(cfg, g, sys, op, t, r);
      assert Untouched(sys.nodes, sys'.nodes, r);
      TwinTransitive(sys.nodes, t, sys.nodes, r, sys'.nodes, r);
    }
  }

  /** One manager call: if it is legal on tile 0 then all its operations are legal, no clone runs out of pages,
      and afterwards all tiles are copies again. */
  lemma CallKeepsTiles(cfg: Config, g: Layout, sys: System, tiles: seq<nat>, call: Call)
    requires TilesOk(cfg, g, sys, tiles) && CallFits(call) && TileLegal(cfg, sys, LeadOp(call, tiles[0]))
    ensures var ops := Ops(cfg, sys, tiles, call);
      && TileRun(cfg, sys, ops) && ClonesComplete(cfg, Step(cfg, sys, ops[0]), ops[1..])
      && TilesOk(cfg, g, RunOps(cfg, sys, ops), tiles)
  {
    hide Sound0, TileLegal, Twin, OwnsNoLeaf, Step, Halfway, LeadPages;
    var t := tiles[0];
    SoundConfig(cfg, g, sys);
    if call.Other? {
      OtherKeepsTiles(cfg, g, sys, tiles, call);
      return;
    }
    var infos := LeadPages(cfg, sys, call, t);
    LeaderStarts(cfg, g, sys, tiles, call);
    var sys1 := Step(cfg, sys, LeadOp(call, t));
    FollowAll(cfg, g, sys, call, t, infos, sys1, [t], tiles[1..]);
    var ops := Ops(cfg, sys, tiles, call);
    assert ops[1..] == FollowOps(call, infos, tiles[1..]) && ops[0] == LeadOp(call, t);
    assert [t] + tiles[1..] == tiles;
    AllDone(cfg, g, sys, call, tiles, RunOps(cfg, sys, ops));
  }

  lemma OtherKeepsTiles(cfg: Config, g: Layout, sys: System, tiles: seq<nat>, call: Call)
    requires TilesOk(cfg, g, sys, tiles) && CallFits(call) && call.Other? && TileLegal(cfg, sys, LeadOp(call, tiles[0]))
    ensures var ops := Ops(cfg, sys, tiles, call);
      && TileRun(cfg, sys, ops) && ClonesComplete(cfg, Step(cfg, sys, ops[0]), ops[1..])
      && TilesOk(cfg, g, RunOps(cfg, sys, ops), tiles)
  {
    hide WellFormed, Owned, ValidPhysical, AlignedPool, Twin, OwnsNoLeaf, PhysicalMemory.Reserve;
    var ops := Ops(cfg, sys, tiles, call);
    assert ops == [call.op];
    StepGrows(cfg, g, sys, call.op);
    StepKeepsPool(cfg, g, sys, call.op);
    assert RunOps(cfg, sys, ops) == Step(cfg, sys, call.op);
  }

  lemma AllDone(cfg: Config, g: Layout, sys0: System, call: Call, tiles: seq<nat>, sys: System)
    requires |tiles| > 0 && Distinct(tiles) && Halfway(cfg, g, sys0, call, tiles[0], sys, tiles, [])
    ensures TilesOk(cfg, g, sys, tiles)
  {
    hide Sound0, Twin, OwnsNoLeaf, LeadForest;
    var t := tiles[0];
    var a := LeadForest(cfg, sys0, call, t);
    forall r | r in tiles ensures Root(cfg, r) in sys.nodes && Twin(sys.nodes, t, sys.nodes, r) {
      assert r in tiles + [];
      assert t in tiles;
      TwinSymmetric(a, t, sys.nodes, t);
      TwinTransitive(sys.nodes, t, a, t, sys.nodes, r);
    }
    forall r | r in tiles[1..] ensures OwnsNoLeaf(sys.nodes, r) {}
  }

  /** A sequence of manager calls. */
  function Manage(cfg: Config, sys: System, tiles: seq<nat>, calls: seq<Call>): System
    requires cfg.levels <= 5 && |tiles| > 0 && forall c :: c in calls ==> CallFits(c)
    decreases |calls|
  {
    if calls == [] then sys else Manage(cfg, RunOps(cfg, sys, Ops(cfg, sys, tiles, calls[0])), tiles, calls[1..])
  }

  /** Each call, when its turn comes, is one that tile 0 can make. */
  ghost predicate LegalCalls(cfg: Config, sys: System, tiles: seq<nat>, calls: seq<Call>)
    requires cfg.levels <= 5 && |tiles| > 0 && forall c :: c in calls ==> CallFits(c)
    decreases |calls|
  {
    calls == []
    || (TileLegal(cfg, sys, LeadOp(calls[0], tiles[0])) && LegalCalls(cfg, RunOps(cfg, sys, Ops(cfg, sys, tiles, calls[0])), tiles, calls[1..]))
  }

  /** However many calls, every tile translates every address alike. */
  lemma {:induction false} ManagedTilesTranslateAlike(cfg: Config, g: Layout, sys: System, tiles: seq<nat>, calls: seq<Call>, t: nat, u: nat, x: nat)
    requires TilesOk(cfg, g, sys, tiles) && (forall c :: c in calls ==> CallFits(c)) && LegalCalls(cfg, sys, tiles, calls)
    requires t in tiles && u in tiles
    ensures TilesOk(cfg, g, Manage(cfg, sys, tiles, calls), tiles)
    ensures Translate(cfg, Manage(cfg, sys, tiles, calls).nodes, t, x) == Translate(cfg, Manage(cfg, sys, tiles, calls).nodes, u, x)
    decreases |calls|
  {
    hide Sound0, TileLegal, Twin, OwnsNoLeaf, RunOps, Ops, Translate;
    SoundConfig(cfg, g, sys);
    if calls == [] {
      TilesTranslateAlike(cfg, g, sys, tiles, t, x);
      TilesTranslateAlike(cfg, g, sys, tiles, u, x);
    } else {
      CallKeepsTiles(cfg, g, sys, tiles, calls[0]);
      ManagedTilesTranslateAlike(cfg, g, RunOps(cfg, sys, Ops(cfg, sys, tiles, calls[0])), tiles, calls[1..], t, u, x);
    }
  }

  lemma TilesTranslateAlike(cfg: Config, g: Layout, sys: System, tiles: seq<nat>, t: nat, x: nat)
    requires TilesOk(cfg, g, sys, tiles) && t in tiles
    ensures Translate(cfg, sys.nodes, tiles[0], x) == Translate(cfg, sys.nodes, t, x)
  {
    hide WellFormed, Owned, ValidPhysical, AlignedPool, Twin, OwnsNoLeaf, Translate, LeafOf;
    TwinsTranslateAlike(cfg, sys.nodes, tiles[0], sys.nodes, t, x);
  }

  /** Tiles that hold nothing but their roots are copies. */
  lemma EmptyTilesOk(cfg: Config, g: Layout, sys: System, tiles: seq<nat>)
    requires Sound0(cfg, g, sys) && |tiles| > 0 && Distinct(tiles)
    requires forall t :: t in tiles ==> Root(cfg, t) in sys.nodes
    requires forall s :: s in sys.nodes && s.tree in tiles ==> s == Root(cfg, s.tree)
    ensures TilesOk(cfg, g, sys, tiles)
  {
    hide WellFormed, Owned, ValidPhysical, AlignedPool;
    forall t | t in tiles ensures Twin(sys.nodes, tiles[0], sys.nodes, t) {
      forall l: nat, n: nat ensures Alike(NodeAt(sys.nodes, Slot(tiles[0], l, n)), NodeAt(sys.nodes, Slot(t, l, n))) {
        assert tiles[0] in tiles;
        RootsAreTables(cfg, g, sys, tiles[0]);
        RootsAreTables(cfg, g, sys, t);
      }
    }
    forall t, s | t in tiles[1..] && s in sys.nodes && s.tree == t ensures IsTable(sys.nodes[s].kind) {
      assert t in tiles;
      RootsAreTables(cfg, g, sys, t);
    }
  }

  lemma RootsAreTables(cfg: Config, g: Layout, sys: System, t: nat)
    requires Sound0(cfg, g, sys) && Root(cfg, t) in sys.nodes
    ensures sys.nodes[Root(cfg, t)].kind == RootKind(cfg)
  {
    hide Owned, ValidPhysical, AlignedPool;
    assert Placed(cfg, sys.nodes, Root(cfg, t));
  }
}
