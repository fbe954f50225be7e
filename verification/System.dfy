/** Whole histories: trees are created, walked and freed while the stream is paused and resumed. */
module System {
  import opened Wrappers
  import opened Arithmetic
  import opened PageTables
  import opened PhysicalMemory
  import opened WalkModel
  import opened TreeFacts
  import opened WalkLookup
  import opened WalkStream
  import opened WalkStreamed
  import opened FrameOwnership
  import opened Streams
  import opened StreamCoherence
  import opened TableDecoder
  import opened FreeModel
  import opened FreeFacts
  import opened FreeExact

  datatype System = System(nodes: Forest, mem: Physical, st: Stream)

  datatype Op =
    | NewTree(tree: nat, bank: nat)
    | ReserveBlock(bank: nat, size: nat, alignment: nat)
    | WalkTree(q: Request, target: nat)
    | FreeRange(tree: nat, va: nat, size: nat)
    | PauseAubFileStream(on: bool)
    | BlockMemWritesViaTbxStream(on: bool)

  function RootKind(cfg: Config): Kind {
    TableKind(cfg.levels)
  }

  function Pause(st: Stream, on: bool): Stream {
    match st
    case Plain(sink) => st
    case AubTbx(_, aub, tbx) => AubTbx(on, aub, tbx)
    case AubShm(_, blocked, aub, tbx) => AubShm(on, blocked, aub, tbx)
  }

  function Block(st: Stream, on: bool): Stream {
    match st
    case AubShm(paused, _, aub, tbx) => AubShm(paused, on, aub, tbx)
    case _ => st
  }

  /** The lists of a free that ran to its end, lowest level first. */
  function FreeCommit(cfg: Config, st: Stream, nodes: Forest, f: Freeing): Stream {
    var local := RootLocal(cfg, nodes, f.tree);
    WriteEntries(WriteEntries(WriteEntries(st, local, f.table[0]), local, f.table[1]), local, f.table[2])
  }

  /** Expect walks look but stream nothing; every other walk commits its entries. */
  function Step(cfg: Config, sys: System, op: Op): System
    requires cfg.levels <= 5 && (op.WalkTree? ==> op.q.pageSize > 0)
  {
    match op
    case NewTree(tree, bank) =>
      var (mem, phys) := PhysicalMemory.Reserve(sys.mem, bank, PAGE_4KB, PAGE_4KB);
      sys.(mem := mem, nodes := sys.nodes[Root(cfg, tree) := Node(RootKind(cfg), phys, bank, NO_ATTRIBUTES, PAGE_4KB, false, false)])
    case ReserveBlock(bank, size, alignment) => sys.(mem := PhysicalMemory.Reserve(sys.mem, bank, size, alignment).0)
    case WalkTree(q, target) =>
      var w := WalkMemory(cfg, q, sys.nodes, sys.mem, target).0;
      if q.mode.Expect? then sys.(nodes := w.nodes, mem := w.mem)
      else var (st, nodes) := Commit(cfg, sys.st, w); System(nodes, w.mem, st)
    case FreeRange(tree, va, size) =>
      var (f, done) := FreeMemory(cfg, sys.nodes, sys.mem, tree, va, size);
      System(f.nodes, f.mem, if done then FreeCommit(cfg, sys.st, sys.nodes, f) else sys.st)
    case PauseAubFileStream(on) => sys.(st := Pause(sys.st, on))
    case BlockMemWritesViaTbxStream(on) => sys.(st := Block(sys.st, on))
  }

  /** What any call may ask for: trees and physical blocks in banks that exist, and walks of existing trees inside their
      address space. A mapping may be pointed at anything, whatever was mapped there before. */
  ghost predicate Allowed(cfg: Config, sys: System, op: Op) {
    match op
    case NewTree(tree, bank) => Root(cfg, tree) !in sys.nodes && HasArena(sys.mem, bank)
    case ReserveBlock(bank, size, alignment) => HasArena(sys.mem, bank) && size > 0 && PageUnit(alignment)
    case WalkTree(q, target) =>
      Root(cfg, q.tree) in sys.nodes && q.pageSize > 0 && FitsIn(cfg, q.gfx, q.size) && BanksExist(q, sys.mem)
    case _ => true
  }

  /** No leaf of the range that gives a frame back stands at the frame of a table. */
  ghost predicate SparesTables(cfg: Config, nodes: Forest, mem: Physical, tree: nat, va: nat, size: nat) {
    forall x :: va <= x < va + size ==> LeafSparesTables(cfg, nodes, mem, tree, x)
  }

  ghost predicate LeafSparesTables(cfg: Config, nodes: Forest, mem: Physical, tree: nat, x: nat) {
    LeafOf(cfg, nodes, tree, x).Some? && nodes[LeafOf(cfg, nodes, tree, x).value].reserved > 0 ==>
      var n := nodes[LeafOf(cfg, nodes, tree, x).value];
      forall t :: t in nodes && IsTable(nodes[t].kind) ==> ArenaFor(mem, n) != ArenaFor(mem, nodes[t]) || n.phys != nodes[t].phys
  }

  ghost predicate TableSafe(cfg: Config, sys: System, op: Op) {
    Allowed(cfg, sys, op) && (op.FreeRange? ==> SparesTables(cfg, sys.nodes, sys.mem, op.tree, op.va, op.size))
  }

  /** The histories of the coherence theorem: frees are of mapped ranges, while every sink is listening, and take no table's frame. */
  ghost predicate Legal(cfg: Config, sys: System, op: Op) {
    && TableSafe(cfg, sys, op)
    && (op.FreeRange? ==> Committed(sys.st) && Mapped(cfg, sys.nodes, op.tree, op.va, op.size))
  }

  ghost predicate Consistent(cfg: Config, g: Layout, sys: System) {
    && ValidConfig(cfg) && WellFormed(cfg, sys.nodes) && Sane(sys.nodes, sys.mem, g, Tables) && AllCoherent(cfg, sys.nodes, sys.st)
  }

  lemma RootsAlwaysPresent(cfg: Config, nodes: Forest)
    requires ValidConfig(cfg) && WellFormed(cfg, nodes)
    ensures RootsPresent(cfg, nodes)
  {
    hide WellFormed;
    forall s | s in nodes ensures Root(cfg, s.tree) in nodes {
      if IsTable(nodes[s].kind) {
        TableBank(cfg, nodes, s);
      } else {
        LeafBelowRoot(cfg, nodes, s);
        ParentTable(cfg, nodes, s);
        TableBank(cfg, nodes, Parent(s));
      }
    }
  }

  lemma LeafBelowRoot(cfg: Config, nodes: Forest, s: Slot)
    requires ValidConfig(cfg) && WellFormed(cfg, nodes) && s in nodes && !IsTable(nodes[s].kind)
    ensures s.level < cfg.levels
  {
    assert Placed(cfg, nodes, s);
  }

  // ---- walks ----

  lemma WalkStep(cfg: Config, g: Layout, sys: System, q: Request, target: nat)
    requires ValidConfig(cfg) && WellFormed(cfg, sys.nodes) && Sane(sys.nodes, sys.mem, g, Tables) && Allowed(cfg, sys, WalkTree(q, target))
    ensures var w := WalkMemory(cfg, q, sys.nodes, sys.mem, target).0;
      && WellFormed(cfg, w.nodes) && Sane(w.nodes, w.mem, g, Tables) && Grows(sys.mem, w.mem)
      && Queued(cfg, sys.nodes, w, {}) && TablesKept(sys.nodes, w.nodes) && w.tree == q.tree
      && Root(cfg, q.tree) in w.nodes
  {
    hide WellFormed, WalkFrom, FitsIn, BanksExist, Sane, Queued, MarksOk, TablesKept, LeafOf;
    var w := Start(q.tree, sys.nodes, sys.mem);
    StartIsQueued(cfg, q.tree, sys.nodes, sys.mem);
    WalkStaysSound(cfg, q, w, q.gfx, q.size, target, 0);
    WalkOwned(cfg, q, w, g, Tables, q.gfx, q.size, target, 0);
    WalkKeepsQueued(cfg, q, sys.nodes, w, q.gfx, q.size, target, 0);
    WalkKeepsTables(cfg, q, w, q.gfx, q.size, target, 0);
  }

  lemma WalkKeepsConsistent(cfg: Config, g: Layout, sys: System, q: Request, target: nat)
    requires Consistent(cfg, g, sys) && Allowed(cfg, sys, WalkTree(q, target))
    requires WithinWindows(Step(cfg, sys, WalkTree(q, target)).mem, g)
    ensures Consistent(cfg, g, Step(cfg, sys, WalkTree(q, target))) && Grows(sys.mem, Step(cfg, sys, WalkTree(q, target)).mem)
  {
    hide WellFormed, WalkMemory, Sane, Queued, TablesKept, AllCoherent, Commit, WithinWindows, SlotsApart, BanksExist;
    WalkStep(cfg, g, sys, q, target);
    var w := WalkMemory(cfg, q, sys.nodes, sys.mem, target).0;
    RootsAlwaysPresent(cfg, sys.nodes);
    FramesGiveSlotsApart(cfg, w.nodes, w.mem, g);
    if q.mode.Expect? {
      DiscardKeepsCoherent(cfg, sys.nodes, w, sys.st);
    } else {
      CommitKeepsCoherent(cfg, sys.nodes, w, sys.st);
      CommitKeepsTree(cfg, g, sys.nodes, w, sys.st, Tables);
    }
  }

  lemma DiscardKeepsCoherent(cfg: Config, n0: Forest, w: Walk, st: Stream)
    requires ValidConfig(cfg) && WellFormed(cfg, n0) && RootsPresent(cfg, n0)
    requires Queued(cfg, n0, w, {}) && TablesKept(n0, w.nodes) && AllCoherent(cfg, n0, st)
    ensures AllCoherent(cfg, w.nodes, st)
  {
    hide WellFormed, Queued, TablesKept, Coherent;
    forall sink | sink in Sinks(st) ensures Coherent(cfg, w.nodes, sink) { SkippedKeepsCoherent(cfg, n0, w, sink); }
  }

  lemma CommitKeepsTree(cfg: Config, g: Layout, n0: Forest, w: Walk, st: Stream, who: Owners)
    requires Queued(cfg, n0, w, {}) && WellFormed(cfg, w.nodes) && Sane(w.nodes, w.mem, g, who)
    ensures var nodes := Commit(cfg, st, w).1;
      WellFormed(cfg, nodes) && Sane(nodes, w.mem, g, who) && Evolves(w.nodes, nodes, None) && nodes.Keys == w.nodes.Keys
  {
    hide WellFormed, Commit, Queued, Owned, ValidPhysical, AlignedPool;
    CommitClears(cfg, n0, st, w);
    var nodes := Commit(cfg, st, w).1;
    assert Evolves(w.nodes, nodes, None);
    EvolvesKeepsPlaced(cfg, w.nodes, nodes, None);
    AllPlaced(cfg, nodes);
    SameFramesOwned(w.nodes, nodes, w.mem, who);
  }

  // ---- frees ----

  lemma FreeStep(cfg: Config, g: Layout, sys: System, tree: nat, va: nat, size: nat)
    requires ValidConfig(cfg) && WellFormed(cfg, sys.nodes) && ValidPhysical(sys.mem, g)
    ensures var (f, done) := FreeMemory(cfg, sys.nodes, sys.mem, tree, va, size);
      FreeInv(cfg, g, sys.nodes, sys.mem, f) && f.tree == tree && (Mapped(cfg, sys.nodes, tree, va, size) ==> done)
  {
    hide FreeInv, FreeFrom, WellFormed, ValidPhysical, Mapped;
    var f0 := Freeing(tree, sys.nodes, sys.mem, [[], [], [], [], []]);
    StartFree(cfg, g, f0);
    FreeKeepsInv(cfg, g, sys.nodes, sys.mem, f0, va, size, va, va + size);
    if Mapped(cfg, sys.nodes, tree, va, size) {
      MappedFreeCompletes(cfg, g, sys.nodes, sys.mem, f0, va, size, va, va + size);
    }
  }

  lemma DeletedInRange(cfg: Config, g: Layout, sys: System, tree: nat, va: nat, size: nat, s: Slot)
    requires ValidConfig(cfg) && WellFormed(cfg, sys.nodes) && ValidPhysical(sys.mem, g)
    requires s in sys.nodes && !IsTable(sys.nodes[s].kind) && s !in FreeMemory(cfg, sys.nodes, sys.mem, tree, va, size).0.nodes
    ensures exists x :: va <= x < va + size && LeafOf(cfg, sys.nodes, tree, x) == Some(s)
  {
    hide FreeInv, FreeFrom, WellFormed, ValidPhysical, LeafOf;
    var f0 := Freeing(tree, sys.nodes, sys.mem, [[], [], [], [], []]);
    StartFree(cfg, g, f0);
    DeletedLeaves(cfg, g, sys.nodes, sys.mem, f0, va, size, va, va + size, s);
  }

  lemma FreeSparesTables(cfg: Config, g: Layout, sys: System, tree: nat, va: nat, size: nat)
    requires ValidConfig(cfg) && WellFormed(cfg, sys.nodes) && Sane(sys.nodes, sys.mem, g, Tables)
    requires SparesTables(cfg, sys.nodes, sys.mem, tree, va, size)
    ensures var f := FreeMemory(cfg, sys.nodes, sys.mem, tree, va, size).0; Sane(f.nodes, f.mem, g, Tables)
  {
    hide FreeMemory, WellFormed, Owned, ValidPhysical, FreeInv, Shrunk, ReturnsFrames, LeafOf, ArenaFor, QueueOk;
    FreeStep(cfg, g, sys, tree, va, size);
    var f := FreeMemory(cfg, sys.nodes, sys.mem, tree, va, size).0;
    InvParts(cfg, g, sys.nodes, sys.mem, f);
    forall s, t | s in sys.nodes && s !in f.nodes && sys.nodes[s].reserved > 0 && !IsTable(sys.nodes[s].kind)
      && t in f.nodes && IsTable(f.nodes[t].kind)
      ensures ArenaFor(sys.mem, sys.nodes[s]) != ArenaFor(sys.mem, f.nodes[t]) || sys.nodes[s].phys != f.nodes[t].phys {
      DeletedInRange(cfg, g, sys, tree, va, size, s);
      var x :| va <= x < va + size && LeafOf(cfg, sys.nodes, tree, x) == Some(s);
      assert LeafSparesTables(cfg, sys.nodes, sys.mem, tree, x);
      KeptNode(sys.nodes, f.nodes, t);
      SameArena(sys.mem, sys.nodes[t], f.nodes[t]);
    }
    FreeKeepsTablesExactly(sys.nodes, sys.mem, f.nodes, f.mem, g);
  }

  lemma SameArena(mem: Physical, m: Node, n: Node)
    requires m.bank == n.bank
    ensures ArenaFor(mem, m) == ArenaFor(mem, n)
  {
  }

  /** A leaf that owns no frame, or still stands at a block of its size that no other node owns, takes no table's frame. */
  lemma OwnBlockSparesTables(cfg: Config, g: Layout, nodes: Forest, mem: Physical, tree: nat, x: nat, s: Slot)
    requires WellFormed(cfg, nodes) && Sane(nodes, mem, g, Tables) && LeafOf(cfg, nodes, tree, x) == Some(s)
    requires nodes[s].reserved == 0
      || (InUse(mem, ArenaFor(mem, nodes[s]), FrameOf(nodes[s]))
          && forall t :: t in nodes && t != s && nodes[t].reserved > 0 && ArenaFor(mem, nodes[t]) == ArenaFor(mem, nodes[s]) ==>
               FrameOf(nodes[t]) != FrameOf(nodes[s]))
    ensures LeafSparesTables(cfg, nodes, mem, tree, x)
  {
    hide ValidPhysical, InUse, ArenaOf, LeafOf, WellFormed;
    forall t | nodes[s].reserved > 0 && t in nodes && IsTable(nodes[t].kind)
      ensures ArenaFor(mem, nodes[s]) != ArenaFor(mem, nodes[t]) || nodes[s].phys != nodes[t].phys {
      assert HoldsFrame(nodes, mem, Tables, t);
      LeafNoTable(cfg, nodes, tree, x, s);
      if ArenaFor(mem, nodes[s]) == ArenaFor(mem, nodes[t]) && nodes[s].phys == nodes[t].phys {
        OneBlockAtAddress(mem, g, ArenaFor(mem, nodes[s]), FrameOf(nodes[s]), FrameOf(nodes[t]));
        assert false;
      }
    }
  }

  /** A sink that took the three lists of a free. */
  function StoreFree(sink: Sink, local: bool, f: Freeing): Sink {
    Store(Store(Store(sink, local, f.table[0]), local, f.table[1]), local, f.table[2])
  }

  lemma FreeGoesTo(cfg: Config, n0: Forest, f: Freeing, l: nat, s: Slot)
    requires l < 5 && ValidConfig(cfg) && WellFormed(cfg, n0) && QueueOk(cfg, n0, f) && SlotsApart(cfg, n0)
    requires s in n0 && s.level < cfg.levels
    ensures GoesTo(f.table[l], RootLocal(cfg, n0, f.tree), s, LocationOf(cfg, n0, s))
    ensures l != s.level ==> Last(f.table[l], s) == None
  {
    hide EntryAddress, RootLocal, WellFormed, Last, EntryOf;
    forall i | 0 <= i < |f.table[l]|
      ensures Location(RootLocal(cfg, n0, f.tree), f.table[l][i].address) == LocationOf(cfg, n0, s) <==> f.table[l][i].slot == s
      ensures f.table[l][i].slot.level == l
    {
      var t := f.table[l][i].slot;
      BelowRoot(cfg, n0, t);
      assert LocationOf(cfg, n0, t) == Location(RootLocal(cfg, n0, f.tree), f.table[l][i].address);
    }
    if l != s.level { NothingForOtherLevels(f.table[l], l, s); }
  }

  lemma BelowRoot(cfg: Config, nodes: Forest, s: Slot)
    requires WellFormed(cfg, nodes) && s in nodes && Parent(s) in nodes
    ensures s.level < cfg.levels
  {
    assert Placed(cfg, nodes, s) && Placed(cfg, nodes, Parent(s));
  }

  lemma SinkAfterFree(cfg: Config, n0: Forest, f: Freeing, sink: Sink, s: Slot)
    requires ValidConfig(cfg) && WellFormed(cfg, n0) && QueueOk(cfg, n0, f) && SlotsApart(cfg, n0)
    requires s in n0 && s.level < cfg.levels
    ensures var r := StoreFree(sink, RootLocal(cfg, n0, f.tree), f); var at := LocationOf(cfg, n0, s);
      var last := if s.level < 5 then Last(f.table[s.level], s) else None;
      if last == None then (at in r <==> at in sink) && (at in sink ==> r[at] == sink[at])
      else at in r && r[at] == last.value
  {
    hide QueueOk, SlotsApart, WellFormed, GoesTo, Store, LocationOf, RootLocal;
    QueueHighEmpty(cfg, n0, f);
    var local := RootLocal(cfg, n0, f.tree);
    var at := LocationOf(cfg, n0, s);
    FreeGoesTo(cfg, n0, f, 0, s);
    FreeGoesTo(cfg, n0, f, 1, s);
    FreeGoesTo(cfg, n0, f, 2, s);
    StoreKeepsLast(sink, local, f.table[0], s, at);
    StoreKeepsLast(Store(sink, local, f.table[0]), local, f.table[1], s, at);
    StoreKeepsLast(Store(Store(sink, local, f.table[0]), local, f.table[1]), local, f.table[2], s, at);
  }

  lemma QueueHighEmpty(cfg: Config, n0: Forest, f: Freeing)
    requires QueueOk(cfg, n0, f)
    ensures f.table[3] == [] && f.table[4] == []
  {
    hide Last, EntryOf;
  }

  /** A sink that took a free is coherent with what is left, and holds zero wherever an entry was cleared. */
  lemma FreedKeepsCoherent(cfg: Config, n0: Forest, f: Freeing, sink: Sink)
    requires ValidConfig(cfg) && WellFormed(cfg, n0) && WellFormed(cfg, f.nodes) && RootsPresent(cfg, f.nodes) && Shrunk(n0, f.nodes)
    requires QueueOk(cfg, n0, f) && SlotsApart(cfg, n0) && Coherent(cfg, n0, sink)
    ensures var r := StoreFree(sink, RootLocal(cfg, n0, f.tree), f);
      && Coherent(cfg, f.nodes, r)
      && (forall s :: s in n0 && s !in f.nodes ==> LocationOf(cfg, n0, s) in r && r[LocationOf(cfg, n0, s)] == Cleared)
  {
    hide QueueOk, SlotsApart, WellFormed, StoreFree, LocationOf, RootLocal, EntryOf, Last;
    var r := StoreFree(sink, RootLocal(cfg, n0, f.tree), f);
    forall s | s in f.nodes && s.level < cfg.levels && !f.nodes[s].pending
      ensures LocationOf(cfg, f.nodes, s) in r && r[LocationOf(cfg, f.nodes, s)] == EntryOf(cfg, f.nodes[s]) {
      SinkAfterFree(cfg, n0, f, sink, s);
      SurvivorQueued(cfg, n0, f, s);
      SurvivorLocation(cfg, n0, f, s);
      assert f.nodes[s] == n0[s].(ps64 := f.nodes[s].ps64);
    }
    forall s | s in n0 && s !in f.nodes ensures LocationOf(cfg, n0, s) in r && r[LocationOf(cfg, n0, s)] == Cleared {
      GoneQueued(cfg, n0, f, s);
      SinkAfterFree(cfg, n0, f, sink, s);
    }
  }

  lemma SurvivorQueued(cfg: Config, n0: Forest, f: Freeing, s: Slot)
    requires QueueOk(cfg, n0, f) && s in f.nodes && s.level < 5
    ensures Last(f.table[s.level], s) == Some(EntryOf(cfg, f.nodes[s])) || (Last(f.table[s.level], s) == None && s in n0 && f.nodes[s] == n0[s])
  {
    hide Last, EntryOf, EntryAddress;
  }

  lemma GoneQueued(cfg: Config, n0: Forest, f: Freeing, s: Slot)
    requires ValidConfig(cfg) && QueueOk(cfg, n0, f) && s in n0 && s !in f.nodes
    ensures s.level < cfg.levels && Last(f.table[s.level], s) == Some(Cleared)
  {
    hide Last, EntryOf, EntryAddress;
  }

  lemma SurvivorLocation(cfg: Config, n0: Forest, f: Freeing, s: Slot)
    requires ValidConfig(cfg) && WellFormed(cfg, f.nodes) && RootsPresent(cfg, f.nodes) && Shrunk(n0, f.nodes)
    requires s in f.nodes && s.level < cfg.levels
    ensures LocationOf(cfg, f.nodes, s) == LocationOf(cfg, n0, s)
  {
    AddressesFromStart(cfg, n0, f.nodes, s);
  }

  lemma FreeCommitStores(cfg: Config, st: Stream, nodes: Forest, f: Freeing)
    requires Committed(st)
    ensures var r, local := FreeCommit(cfg, st, nodes, f), RootLocal(cfg, nodes, f.tree);
      match st
      case Plain(sink) => r == Plain(StoreFree(sink, local, f))
      case AubTbx(paused, aub, tbx) => r == AubTbx(paused, StoreFree(aub, local, f), StoreFree(tbx, local, f))
      case AubShm(paused, blocked, aub, tbx) => r == AubShm(paused, blocked, StoreFree(aub, local, f), StoreFree(tbx, local, f))
  {
    hide Store, RootLocal;
  }

  lemma FreeKeepsConsistent(cfg: Config, g: Layout, sys: System, tree: nat, va: nat, size: nat)
    requires Consistent(cfg, g, sys) && Legal(cfg, sys, FreeRange(tree, va, size)) && WithinWindows(Step(cfg, sys, FreeRange(tree, va, size)).mem, g)
    ensures var sys' := Step(cfg, sys, FreeRange(tree, va, size));
      && Consistent(cfg, g, sys') && Grows(sys.mem, sys'.mem)
      && (forall s, sink :: s in sys.nodes && s !in sys'.nodes && sink in Sinks(sys'.st) ==>
            LocationOf(cfg, sys.nodes, s) in sink && sink[LocationOf(cfg, sys.nodes, s)] == Cleared)
  {
    hide WellFormed, FreeMemory, Owned, ValidPhysical, QueueOk, Mapped, FreeCommit, WithinWindows, SlotsApart, Coherent, StoreFree, RootLocal,
         Shrunk, LocationOf, SparesTables, ReturnsFrames, FreeInv;
    FreeStep(cfg, g, sys, tree, va, size);
    FreeSparesTables(cfg, g, sys, tree, va, size);
    var f := FreeMemory(cfg, sys.nodes, sys.mem, tree, va, size).0;
    InvParts(cfg, g, sys.nodes, sys.mem, f);
    ReturnsGrows(sys.nodes, sys.mem, f.nodes, f.mem);
    WindowsInherited(sys.mem, f.mem, g);
    FramesGiveSlotsApart(cfg, sys.nodes, sys.mem, g);
    RootsAlwaysPresent(cfg, f.nodes);
    FreeCommitStores(cfg, sys.st, sys.nodes, f);
    forall sink | sink in Sinks(sys.st)
      ensures var r := StoreFree(sink, RootLocal(cfg, sys.nodes, f.tree), f);
        && Coherent(cfg, f.nodes, r)
        && (forall s :: s in sys.nodes && s !in f.nodes ==> LocationOf(cfg, sys.nodes, s) in r && r[LocationOf(cfg, sys.nodes, s)] == Cleared) {
      FreedKeepsCoherent(cfg, sys.nodes, f, sink);
    }
  }

  lemma ReturnsGrows(n0: Forest, mem0: Physical, nodes: Forest, mem: Physical)
    requires ReturnsFrames(n0, mem0, nodes, mem)
    ensures Grows(mem0, mem)
  {
    hide InUse, Released, Available;
  }

  // ---- new trees and flags ----

  lemma NewTreeKeepsConsistent(cfg: Config, g: Layout, sys: System, tree: nat, bank: nat)
    requires Consistent(cfg, g, sys) && Legal(cfg, sys, NewTree(tree, bank))
    ensures Consistent(cfg, g, Step(cfg, sys, NewTree(tree, bank))) && Grows(sys.mem, Step(cfg, sys, NewTree(tree, bank)).mem)
  {
    hide WellFormed, Sane, HasArena, PhysicalMemory.Reserve, EntryOf;
    var r := Root(cfg, tree);
    var sys' := Step(cfg, sys, NewTree(tree, bank));
    var n := sys'.nodes[r];
    RootsAlwaysPresent(cfg, sys.nodes);
    AddedOwned(sys.nodes, sys.mem, g, Tables, r, n);
    RootKeepsWellFormed(cfg, sys.nodes, r, n);
    forall sink | sink in Sinks(sys.st) ensures Coherent(cfg, sys'.nodes, sink) {
      forall s | s in sys'.nodes && s.level < cfg.levels && !sys'.nodes[s].pending
        ensures LocationOf(cfg, sys'.nodes, s) in sink && sink[LocationOf(cfg, sys'.nodes, s)] == EntryOf(cfg, sys'.nodes[s]) {
        ParentTable(cfg, sys.nodes, s);
        assert s.tree != tree;
        assert LocationOf(cfg, sys'.nodes, s) == LocationOf(cfg, sys.nodes, s);
      }
    }
  }

  lemma RootKeepsWellFormed(cfg: Config, nodes: Forest, r: Slot, n: Node)
    requires ValidConfig(cfg) && WellFormed(cfg, nodes) && r !in nodes && r == Root(cfg, r.tree) && n.kind == RootKind(cfg)
    ensures WellFormed(cfg, nodes[r := n])
  {
    EvolvesKeepsPlaced(cfg, nodes, nodes[r := n], None);
    assert Placed(cfg, nodes[r := n], r);
  }

  // ---- histories ----

  function RunOps(cfg: Config, sys: System, ops: seq<Op>): System
    requires cfg.levels <= 5 && forall op :: op in ops && op.WalkTree? ==> op.q.pageSize > 0
    decreases |ops|
  {
    if ops == [] then sys else RunOps(cfg, Step(cfg, sys, ops[0]), ops[1..])
  }

  ghost predicate LegalRun(cfg: Config, sys: System, ops: seq<Op>)
    requires cfg.levels <= 5 && forall op :: op in ops && op.WalkTree? ==> op.q.pageSize > 0
    decreases |ops|
  {
    ops == [] || (Legal(cfg, sys, ops[0]) && LegalRun(cfg, Step(cfg, sys, ops[0]), ops[1..]))
  }

  lemma StepGrows(cfg: Config, g: Layout, sys: System, op: Op)
    requires ValidConfig(cfg) && WellFormed(cfg, sys.nodes) && Sane(sys.nodes, sys.mem, g, Tables) && TableSafe(cfg, sys, op)
    ensures var sys' := Step(cfg, sys, op);
      WellFormed(cfg, sys'.nodes) && Sane(sys'.nodes, sys'.mem, g, Tables) && Grows(sys.mem, sys'.mem)
  {
    hide WellFormed, Owned, ValidPhysical, FreeMemory, WalkMemory, Commit, Mapped, BanksExist, FreeCommit, PhysicalMemory.Reserve, Coherent,
         SparesTables, FreeInv, ReturnsFrames, QueueOk, Shrunk;
    match op {
      case NewTree(tree, bank) =>
        RootKeepsWellFormed(cfg, sys.nodes, Root(cfg, tree), Step(cfg, sys, op).nodes[Root(cfg, tree)]);
        AddedOwned(sys.nodes, sys.mem, g, Tables, Root(cfg, tree), Step(cfg, sys, op).nodes[Root(cfg, tree)]);
      case ReserveBlock(bank, size, alignment) =>
        ReservedKeepsOwned(sys.nodes, sys.mem, g, Tables, bank, size, alignment);
      case WalkTree(q, target) =>
        WalkStep(cfg, g, sys, q, target);
        CommitKeepsTree(cfg, g, sys.nodes, WalkMemory(cfg, q, sys.nodes, sys.mem, target).0, sys.st, Tables);
      case FreeRange(tree, va, size) =>
        FreeStep(cfg, g, sys, tree, va, size);
        FreeSparesTables(cfg, g, sys, tree, va, size);
        InvParts(cfg, g, sys.nodes, sys.mem, FreeMemory(cfg, sys.nodes, sys.mem, tree, va, size).0);
        ReturnsGrows(sys.nodes, sys.mem, Step(cfg, sys, op).nodes, Step(cfg, sys, op).mem);
      case _ =>
    }
  }

  /** A block taken for anyone else disturbs no frame. */
  lemma ReservedKeepsOwned(nodes: Forest, mem: Physical, g: Layout, who: Owners, bank: nat, size: nat, alignment: nat)
    requires Sane(nodes, mem, g, who) && HasArena(mem, bank) && size > 0 && PageUnit(alignment)
    ensures var mem' := PhysicalMemory.Reserve(mem, bank, size, alignment).0; Sane(nodes, mem', g, who) && Grows(mem, mem')
  {
    hide ValidPhysical, AlignedPool, PhysicalMemory.Reserve, InUse, ArenaOf, FrameAllocator.Disjoint;
    var mem' := PhysicalMemory.Reserve(mem, bank, size, alignment).0;
    ReserveFacts(mem, g, bank, size, alignment);
    if who.Everyone? { ReserveKeepsPool(mem, bank, size, alignment); }
    forall t | t in nodes ensures HoldsFrame(nodes, mem', who, t) { assert HoldsFrame(nodes, mem, who, t); }
    forall t, u | t in nodes && u in nodes ensures FramesDiffer(nodes, mem', who, t, u) { assert FramesDiffer(nodes, mem, who, t, u); }
  }

  lemma StepKeepsConsistent(cfg: Config, g: Layout, sys: System, op: Op)
    requires Consistent(cfg, g, sys) && Legal(cfg, sys, op) && WithinWindows(Step(cfg, sys, op).mem, g)
    ensures Consistent(cfg, g, Step(cfg, sys, op)) && Grows(sys.mem, Step(cfg, sys, op).mem)
  {
    hide WellFormed, Sane, Coherent, Legal, TableSafe, Allowed, WithinWindows;
    LegalIsTableSafe(cfg, sys, op);
    match op {
      case NewTree(tree, bank) => NewTreeKeepsConsistent(cfg, g, sys, tree, bank);
      case ReserveBlock(bank, size, alignment) => StepGrows(cfg, g, sys, op);
      case WalkTree(q, target) => WalkKeepsConsistent(cfg, g, sys, q, target);
      case FreeRange(tree, va, size) => FreeKeepsConsistent(cfg, g, sys, tree, va, size);
      case _ =>
    }
  }

  lemma LegalIsTableSafe(cfg: Config, sys: System, op: Op)
    requires Legal(cfg, sys, op)
    ensures TableSafe(cfg, sys, op) && Allowed(cfg, sys, op)
  {
  }

  lemma {:induction false} RunGrows(cfg: Config, g: Layout, sys: System, ops: seq<Op>)
    requires ValidConfig(cfg) && WellFormed(cfg, sys.nodes) && Sane(sys.nodes, sys.mem, g, Tables)
    requires forall op :: op in ops && op.WalkTree? ==> op.q.pageSize > 0
    requires LegalRun(cfg, sys, ops)
    ensures Grows(sys.mem, RunOps(cfg, sys, ops).mem)
    decreases |ops|
  {
    hide WellFormed, Sane, Legal, Step, TableSafe;
    if ops != [] {
      LegalIsTableSafe(cfg, sys, ops[0]);
      StepGrows(cfg, g, sys, ops[0]);
      RunGrows(cfg, g, Step(cfg, sys, ops[0]), ops[1..]);
      GrowsTransitive(sys.mem, Step(cfg, sys, ops[0]).mem, RunOps(cfg, sys, ops).mem);
    }
  }

  /** Over every legal history whose allocators stay inside their windows, whatever was remapped in it, the forest stays well
      formed, the tables' frames stay in use and disjoint, and every sink stays coherent with every node that is not waiting
      to be written. */
  lemma {:induction false} RunKeepsConsistent(cfg: Config, g: Layout, sys: System, ops: seq<Op>)
    requires Consistent(cfg, g, sys)
    requires forall op :: op in ops && op.WalkTree? ==> op.q.pageSize > 0
    requires LegalRun(cfg, sys, ops) && WithinWindows(RunOps(cfg, sys, ops).mem, g)
    ensures Consistent(cfg, g, RunOps(cfg, sys, ops))
    decreases |ops|
  {
    hide WellFormed, Sane, Legal, Step, WithinWindows, AllCoherent, TableSafe;
    if ops != [] {
      var sys1 := Step(cfg, sys, ops[0]);
      LegalIsTableSafe(cfg, sys, ops[0]);
      StepGrows(cfg, g, sys, ops[0]);
      RunGrows(cfg, g, sys1, ops[1..]);
      WindowsInherited(sys1.mem, RunOps(cfg, sys1, ops[1..]).mem, g);
      StepKeepsConsistent(cfg, g, sys, ops[0]);
      RunKeepsConsistent(cfg, g, sys1, ops[1..]);
    }
  }

  // ---- histories in which no leaf is moved out of its frame ----

  /** No mapping is pointed at a leaf that owns a frame; frees may be of anything, on any stream. */
  ghost predicate KeepsOwners(cfg: Config, sys: System, op: Op) {
    Allowed(cfg, sys, op) && (op.WalkTree? ==> NoOwnedLeaves(cfg, op.q, sys.nodes, Everyone, op.q.gfx, op.q.size))
  }

  ghost predicate OwningRun(cfg: Config, sys: System, ops: seq<Op>)
    requires cfg.levels <= 5 && forall op :: op in ops && op.WalkTree? ==> op.q.pageSize > 0
    decreases |ops|
  {
    ops == [] || (KeepsOwners(cfg, sys, ops[0]) && OwningRun(cfg, Step(cfg, sys, ops[0]), ops[1..]))
  }

  lemma WalkStepOwners(cfg: Config, g: Layout, sys: System, q: Request, target: nat)
    requires ValidConfig(cfg) && WellFormed(cfg, sys.nodes) && Sane(sys.nodes, sys.mem, g, Everyone)
    requires Allowed(cfg, sys, WalkTree(q, target)) && NoOwnedLeaves(cfg, q, sys.nodes, Everyone, q.gfx, q.size)
    ensures var w := WalkMemory(cfg, q, sys.nodes, sys.mem, target).0;
      && WellFormed(cfg, w.nodes) && Sane(w.nodes, w.mem, g, Everyone) && Queued(cfg, sys.nodes, w, {})
      && Root(cfg, q.tree) in w.nodes && w.tree == q.tree
  {
    hide WellFormed, WalkFrom, FitsIn, BanksExist, Owned, ValidPhysical, AlignedPool, Queued, MarksOk, TablesKept, NoOwnedLeaves;
    var w := Start(q.tree, sys.nodes, sys.mem);
    EveryoneIncludesTables(sys.nodes, sys.mem, Everyone);
    WalkStep(cfg, g, sys, q, target);
    WalkOwned(cfg, q, w, g, Everyone, q.gfx, q.size, target, 0);
  }

  lemma StepKeepsOwners(cfg: Config, g: Layout, sys: System, op: Op)
    requires ValidConfig(cfg) && WellFormed(cfg, sys.nodes) && Sane(sys.nodes, sys.mem, g, Everyone) && KeepsOwners(cfg, sys, op)
    ensures WellFormed(cfg, Step(cfg, sys, op).nodes) && Sane(Step(cfg, sys, op).nodes, Step(cfg, sys, op).mem, g, Everyone)
  {
    hide WellFormed, Owned, ValidPhysical, AlignedPool, FreeMemory, WalkMemory, Commit, Mapped, BanksExist, FreeCommit, PhysicalMemory.Reserve,
         SparesTables, FreeInv, ReturnsFrames, QueueOk, Shrunk, NoOwnedLeaves, Queued;
    match op {
      case NewTree(tree, bank) =>
        RootKeepsWellFormed(cfg, sys.nodes, Root(cfg, tree), Step(cfg, sys, op).nodes[Root(cfg, tree)]);
        AddedOwned(sys.nodes, sys.mem, g, Everyone, Root(cfg, tree), Step(cfg, sys, op).nodes[Root(cfg, tree)]);
      case ReserveBlock(bank, size, alignment) =>
        ReservedKeepsOwned(sys.nodes, sys.mem, g, Everyone, bank, size, alignment);
      case WalkTree(q, target) =>
        WalkStepOwners(cfg, g, sys, q, target);
        CommitKeepsTree(cfg, g, sys.nodes, WalkMemory(cfg, q, sys.nodes, sys.mem, target).0, sys.st, Everyone);
      case FreeRange(tree, va, size) =>
        FreeStep(cfg, g, sys, tree, va, size);
        var f := FreeMemory(cfg, sys.nodes, sys.mem, tree, va, size).0;
        InvParts(cfg, g, sys.nodes, sys.mem, f);
        FreeKeepsOwners(sys.nodes, sys.mem, f.nodes, f.mem, g);
      case _ =>
    }
  }

  /** Over every such history every frame taken for a node, table or leaf, stays in use, aligned, and different from all others. */
  lemma {:induction false} RunKeepsOwners(cfg: Config, g: Layout, sys: System, ops: seq<Op>)
    requires ValidConfig(cfg) && WellFormed(cfg, sys.nodes) && Sane(sys.nodes, sys.mem, g, Everyone)
    requires forall op :: op in ops && op.WalkTree? ==> op.q.pageSize > 0
    requires OwningRun(cfg, sys, ops)
    ensures var sys' := RunOps(cfg, sys, ops); WellFormed(cfg, sys'.nodes) && Sane(sys'.nodes, sys'.mem, g, Everyone)
    decreases |ops|
  {
    hide WellFormed, Sane, KeepsOwners, Step;
    if ops != [] {
      StepKeepsOwners(cfg, g, sys, ops[0]);
      RunKeepsOwners(cfg, g, Step(cfg, sys, ops[0]), ops[1..]);
    }
  }

  /** Nothing mapped, nothing streamed, allocators fresh. */
  lemma EmptyIsConsistent(cfg: Config, count: nat, g: Layout, st: Stream)
    requires ValidConfig(cfg)
    ensures Consistent(cfg, g, System(map[], Fresh(count, g.bankSize, g.localMemory), st))
    ensures Sane(map[], Fresh(count, g.bankSize, g.localMemory), g, Everyone)
  {
    FreshIsValid(count, g.bankSize, g.localMemory);
  }
}
