/** Freeing keeps the forest well formed, gives back exactly the frames of the deleted nodes, and queues what changed. */
module FreeFacts {
  import opened Wrappers
  import opened Arithmetic
  import opened FrameAllocator
  import opened PhysicalMemory
  import opened PageTables
  import opened WalkModel
  import opened TreeFacts
  import opened WalkLookup
  import opened WalkStream
  import opened FrameOwnership
  import opened FreeModel

  /** The survivors are the old nodes, except that PS64 marks may have been cleared. */
  ghost predicate Shrunk(n0: Forest, nodes: Forest) {
    forall s :: s in nodes ==> s in n0 && nodes[s] == n0[s].(ps64 := nodes[s].ps64)
  }

  /** A deleted node that took its frame from the allocator last stood at this block's address. */
  ghost predicate Released(n0: Forest, nodes: Forest, mem: Physical, i: nat, b: Block) {
    exists s :: s in n0 && s !in nodes && n0[s].reserved > 0 && ArenaFor(mem, n0[s]) == i && n0[s].phys == b.addr
  }

  /** Exactly the blocks at the addresses of deleted nodes have moved from the blocks in use to the free ones. */
  ghost predicate ReturnsFrames(n0: Forest, mem0: Physical, nodes: Forest, mem: Physical) {
    && Grows(mem0, mem)
    && (forall i, b :: InUse(mem, i, b) <==> InUse(mem0, i, b) && !Released(n0, nodes, mem0, i, b))
    && (forall i, b :: Available(mem, i, b) <==> Available(mem0, i, b) || (InUse(mem0, i, b) && Released(n0, nodes, mem0, i, b)))
  }

  /** What is queued for a survivor is its value (and something is, if it changed); a deleted node's last entry is zero. */
  ghost predicate QueueOk(cfg: Config, n0: Forest, f: Freeing) {
    && (forall s :: s in f.nodes && s.level < 5 ==>
          Last(f.table[s.level], s) == Some(EntryOf(cfg, f.nodes[s])) || (Last(f.table[s.level], s) == None && s in n0 && f.nodes[s] == n0[s]))
    && (forall s :: s in n0 && s !in f.nodes ==> s.level < 3 && Last(f.table[s.level], s) == Some(Cleared))
    && (forall l, i :: 0 <= l < 5 && 0 <= i < |f.table[l]| ==>
          && f.table[l][i].slot.level == l && f.table[l][i].slot.tree == f.tree
          && f.table[l][i].slot in n0 && Parent(f.table[l][i].slot) in n0
          && f.table[l][i].address == EntryAddress(n0, f.table[l][i].slot))
    && f.table[3] == [] && f.table[4] == []
  }

  ghost predicate FreeInv(cfg: Config, g: Layout, n0: Forest, mem0: Physical, f: Freeing) {
    && ValidConfig(cfg) && WellFormed(cfg, f.nodes) && Shrunk(n0, f.nodes)
    && ValidPhysical(f.mem, g) && ReturnsFrames(n0, mem0, f.nodes, f.mem)
    && QueueOk(cfg, n0, f)
  }

  // ---- the two elementary steps ----

  lemma DeleteKeepsWellFormed(cfg: Config, nodes: Forest, s: Slot)
    requires WellFormed(cfg, nodes) && Empty(nodes, s)
    ensures WellFormed(cfg, nodes - {s})
  {
    forall t | t in nodes - {s} ensures Placed(cfg, nodes - {s}, t) { assert Placed(cfg, nodes, t); }
  }

  lemma DeleteReturnsFrames(n0: Forest, mem0: Physical, nodes: Forest, mem: Physical, g: Layout, s: Slot)
    requires Shrunk(n0, nodes) && s in nodes && ReturnsFrames(n0, mem0, nodes, mem) && ValidPhysical(mem, g)
    ensures var mem' := if nodes[s].reserved > 0 then FreeFrame(mem, nodes[s].bank, nodes[s].phys) else mem;
      ReturnsFrames(n0, mem0, nodes - {s}, mem') && ValidPhysical(mem', g)
  {
    hide InUse, ArenaOf, Available, FreeFrame, ValidPhysical, Released;
    var mem' := if nodes[s].reserved > 0 then FreeFrame(mem, nodes[s].bank, nodes[s].phys) else mem;
    FreeFrameFacts(mem, g, nodes[s].bank, nodes[s].phys);
    forall i, b
      ensures InUse(mem', i, b) <==> InUse(mem0, i, b) && !Released(n0, nodes - {s}, mem0, i, b)
      ensures Available(mem', i, b) <==> Available(mem0, i, b) || (InUse(mem0, i, b) && Released(n0, nodes - {s}, mem0, i, b)) {
      ReleasedStep(n0, nodes, mem0, s, i, b);
    }
  }

  lemma ReleasedStep(n0: Forest, nodes: Forest, mem: Physical, s: Slot, i: nat, b: Block)
    requires Shrunk(n0, nodes) && s in nodes
    ensures Released(n0, nodes - {s}, mem, i, b) <==>
      Released(n0, nodes, mem, i, b) || (nodes[s].reserved > 0 && i == ArenaFor(mem, nodes[s]) && b.addr == nodes[s].phys)
  {
    hide ArenaOf;
    if Released(n0, nodes - {s}, mem, i, b) {
      var t :| t in n0 && t !in nodes - {s} && n0[t].reserved > 0 && ArenaFor(mem, n0[t]) == i && n0[t].phys == b.addr;
      if t in nodes { assert t == s; }
    }
    if Released(n0, nodes, mem, i, b) {
      var t :| t in n0 && t !in nodes && n0[t].reserved > 0 && ArenaFor(mem, n0[t]) == i && n0[t].phys == b.addr;
      assert t !in nodes - {s};
    }
    if nodes[s].reserved > 0 && i == ArenaFor(mem, nodes[s]) && b.addr == nodes[s].phys {
      assert s in n0 && s !in nodes - {s};
    }
  }

  lemma AppendLast(f: Freeing, s: Slot, e: Entry)
    requires s.level < 5
    ensures forall x: Slot :: x.level < 5 ==>
      Last(Append(f, s, e).table[x.level], x) == if x == s then Some(e) else Last(f.table[x.level], x)
  {
    hide EntryAddress;
    forall x: Slot | x.level < 5
      ensures Last(Append(f, s, e).table[x.level], x) == if x == s then Some(e) else Last(f.table[x.level], x) {
      if x.level == s.level { LastAppend(f.table[s.level], PageEntryInfo(s, EntryAddress(f.nodes, s), e), x); }
    }
  }

  lemma AddressesFromStart(cfg: Config, n0: Forest, nodes: Forest, s: Slot)
    requires WellFormed(cfg, nodes) && Shrunk(n0, nodes) && s in nodes && s.level < cfg.levels
    ensures s in n0 && Parent(s) in n0 && EntryAddress(nodes, s) == EntryAddress(n0, s)
  {
    assert Placed(cfg, nodes, s);
  }

  lemma DeleteKeepsQueue(cfg: Config, n0: Forest, f: Freeing, s: Slot)
    requires QueueOk(cfg, n0, f) && s in f.nodes && s.level < 3 && s.tree == f.tree
    requires s in n0 && Parent(s) in n0 && EntryAddress(f.nodes, s) == EntryAddress(n0, s)
    ensures QueueOk(cfg, n0, Delete(f, s))
  {
    hide EntryOf, EntryAddress, FreeFrame, Last;
    AppendLast(f, s, Cleared);
  }

  lemma DeleteKeepsInv(cfg: Config, g: Layout, n0: Forest, mem0: Physical, f: Freeing, s: Slot)
    requires FreeInv(cfg, g, n0, mem0, f) && s in f.nodes && s.level < 3 && s.tree == f.tree && Empty(f.nodes, s)
    ensures FreeInv(cfg, g, n0, mem0, Delete(f, s))
  {
    hide WellFormed, ValidPhysical, ReturnsFrames, QueueOk, Empty;
    DeleteKeepsWellFormed(cfg, f.nodes, s);
    AddressesFromStart(cfg, n0, f.nodes, s);
    DeleteReturnsFrames(n0, mem0, f.nodes, f.mem, g, s);
    DeleteKeepsQueue(cfg, n0, f, s);
  }

  lemma UnmarkKeepsInv(cfg: Config, g: Layout, n0: Forest, mem0: Physical, f: Freeing, s: Slot)
    requires FreeInv(cfg, g, n0, mem0, f) && s.level == 0 && s.tree == f.tree
    ensures FreeInv(cfg, g, n0, mem0, Unmark(cfg, f, s))
    ensures Unmark(cfg, f, s).nodes.Keys == f.nodes.Keys && Unmark(cfg, f, s).tree == f.tree
  {
    hide WellFormed, ValidPhysical, ReturnsFrames, QueueOk;
    if s in f.nodes {
      var nodes' := f.nodes[s := f.nodes[s].(ps64 := false)];
      assert Evolves(f.nodes, nodes', None);
      EvolvesKeepsPlaced(cfg, f.nodes, nodes', None);
      SameReturns(n0, mem0, f.nodes, nodes', f.mem);
      AddressesFromStart(cfg, n0, nodes', s);
      UnmarkKeepsQueue(cfg, n0, f, s);
      assert WellFormed(cfg, nodes') by { AllPlaced(cfg, nodes'); }
    }
  }

  lemma SameReturns(n0: Forest, mem0: Physical, nodes: Forest, nodes': Forest, mem: Physical)
    requires ReturnsFrames(n0, mem0, nodes, mem) && nodes'.Keys == nodes.Keys
    ensures ReturnsFrames(n0, mem0, nodes', mem)
  {
    hide InUse, ArenaFor, Available;
    forall i, b ensures Released(n0, nodes', mem0, i, b) == Released(n0, nodes, mem0, i, b) {
      SameReleased(n0, nodes, nodes', mem0, i, b);
    }
  }

  lemma SameReleased(n0: Forest, nodes: Forest, nodes': Forest, mem: Physical, i: nat, b: Block)
    requires nodes'.Keys == nodes.Keys
    ensures Released(n0, nodes', mem, i, b) == Released(n0, nodes, mem, i, b)
  {
    assert forall s :: s in nodes' <==> s in nodes;
  }

  lemma UnmarkKeepsQueue(cfg: Config, n0: Forest, f: Freeing, s: Slot)
    requires QueueOk(cfg, n0, f) && s in f.nodes && s.level == 0 && s.tree == f.tree && s in n0 && Parent(s) in n0
    requires EntryAddress(f.nodes[s := f.nodes[s].(ps64 := false)], s) == EntryAddress(n0, s)
    ensures QueueOk(cfg, n0, Unmark(cfg, f, s))
  {
    hide EntryOf, EntryAddress, Last;
    var f1 := f.(nodes := f.nodes[s := f.nodes[s].(ps64 := false)]);
    AppendLast(f1, s, EntryOf(cfg, f1.nodes[s]));
  }

  lemma {:induction false} UnmarkRangeKeepsInv(cfg: Config, g: Layout, n0: Forest, mem0: Physical, f: Freeing, low: nat, high: nat)
    requires FreeInv(cfg, g, n0, mem0, f)
    ensures var r := UnmarkRange(cfg, f, low, high);
      FreeInv(cfg, g, n0, mem0, r) && r.nodes.Keys == f.nodes.Keys && r.tree == f.tree && Shrunk(f.nodes, r.nodes)
    decreases high - low
  {
    hide FreeInv, EntryOf, EntryAddress;
    if low < high {
      UnmarkKeepsInv(cfg, g, n0, mem0, f, Slot(f.tree, 0, low));
      UnmarkRangeKeepsInv(cfg, g, n0, mem0, Unmark(cfg, f, Slot(f.tree, 0, low)), low + 1, high);
    }
  }

  // ---- one page ----

  lemma LeafIsEmpty(cfg: Config, nodes: Forest, s: Slot)
    requires WellFormed(cfg, nodes) && s.level < cfg.levels && s in nodes && !IsTable(nodes[s].kind)
    ensures Empty(nodes, s)
  {
    NoChildren(cfg, nodes, s);
  }

  lemma DeleteNodes(f: Freeing, s: Slot)
    requires s in f.nodes && s.level < 5
    ensures Delete(f, s).nodes == f.nodes - {s} && Delete(f, s).tree == f.tree
  {
  }

  lemma FreeLeafKeepsInv(cfg: Config, g: Layout, n0: Forest, mem0: Physical, f: Freeing, s: Slot, va: nat, size: nat, start: nat, end: nat)
    requires FreeInv(cfg, g, n0, mem0, f) && s.level == 0 && s.tree == f.tree
    ensures var r := FreeLeaf(cfg, f, s, va, size, start, end);
      FreeInv(cfg, g, n0, mem0, r) && r.nodes.Keys == f.nodes.Keys - {s} && r.tree == f.tree && Shrunk(f.nodes, r.nodes)
  {
    hide FreeInv, Delete, UnmarkRange, Empty;
    if s in f.nodes {
      InvPlaced(cfg, g, n0, mem0, f, s);
      DeleteKeepsInv(cfg, g, n0, mem0, f, s);
      DeleteNodes(f, s);
      var f0 := Delete(f, s);
      UnmarkRangeKeepsInv(cfg, g, n0, mem0, f0, GroupBase(s), s.num);
      var f1 := if va == start && start % PAGE_64KB != 0 then UnmarkRange(cfg, f0, GroupBase(s), s.num) else f0;
      UnmarkRangeKeepsInv(cfg, g, n0, mem0, f1, s.num + 1, GroupBase(s) + 16);
    }
  }

  lemma InvPlaced(cfg: Config, g: Layout, n0: Forest, mem0: Physical, f: Freeing, s: Slot)
    requires FreeInv(cfg, g, n0, mem0, f) && s in f.nodes && s.level < 2
    ensures s.level < cfg.levels <= 5 && (s.level == 0 || f.nodes[s].kind.Page2MB? ==> Empty(f.nodes, s))
  {
    hide ValidPhysical, ReturnsFrames, QueueOk, Empty;
    assert Placed(cfg, f.nodes, s);
    if !IsTable(f.nodes[s].kind) { LeafIsEmpty(cfg, f.nodes, s); }
  }

  lemma DeleteIfEmptyKeepsInv(cfg: Config, g: Layout, n0: Forest, mem0: Physical, f: Freeing, s: Slot)
    requires FreeInv(cfg, g, n0, mem0, f) && s.level < 3 && s.tree == f.tree
    ensures var r := DeleteIfEmpty(f, s);
      && FreeInv(cfg, g, n0, mem0, r) && r.tree == f.tree
      && r.nodes == if s in f.nodes && Empty(f.nodes, s) then f.nodes - {s} else f.nodes
  {
    hide FreeInv, Delete, Empty;
    if s in f.nodes && Empty(f.nodes, s) {
      DeleteKeepsInv(cfg, g, n0, mem0, f, s);
      DeleteNodes(f, s);
    }
  }

  /** The leaf goes, the emptied table goes with it, and nothing else does. */
  lemma FreePageKeepsInv(cfg: Config, g: Layout, n0: Forest, mem0: Physical, f: Freeing, va: nat, size: nat, start: nat, end: nat)
    requires FreeInv(cfg, g, n0, mem0, f) && TableSlot(f.tree, 1, va) in f.nodes
    ensures var r := FreePage(cfg, f, va, size, start, end);
      && FreeInv(cfg, g, n0, mem0, r) && r.tree == f.tree && Shrunk(f.nodes, r.nodes)
      && PageGone(cfg, f.nodes, r.nodes, f.tree, va)
  {
    hide FreeInv, Delete, DeleteIfEmpty, FreeLeaf, LeafSlot, Empty;
    var p := TableSlot(f.tree, 1, va);
    InvLevels(cfg, g, n0, mem0, f);
    InvPlaced(cfg, g, n0, mem0, f, p);
    if f.nodes[p].kind.Page2MB? {
      DeleteKeepsInv(cfg, g, n0, mem0, f, p);
      DeleteNodes(f, p);
      DeleteIfEmptyKeepsInv(cfg, g, n0, mem0, Delete(f, p), TableSlot(f.tree, 2, va));
    } else {
      var s := LeafSlot(cfg, f.tree, f.nodes[p].kind, va);
      LeafSlotLevel(cfg, f.tree, f.nodes[p].kind, va);
      FreeLeafKeepsInv(cfg, g, n0, mem0, f, s, va, size, start, end);
      var f1 := FreeLeaf(cfg, f, s, va, size, start, end);
      DeleteIfEmptyKeepsInv(cfg, g, n0, mem0, f1, p);
      EmptyByKeys(f1.nodes, f.nodes - {s}, p);
    }
  }

  lemma InvLevels(cfg: Config, g: Layout, n0: Forest, mem0: Physical, f: Freeing)
    requires FreeInv(cfg, g, n0, mem0, f)
    ensures cfg.levels == 4 || cfg.levels == 5
  {
    hide WellFormed, ValidPhysical, ReturnsFrames, QueueOk;
  }

  lemma EmptyByKeys(a: Forest, b: Forest, s: Slot)
    requires a.Keys == b.Keys
    ensures Empty(a, s) == Empty(b, s)
  {
    assert forall x :: x in a <==> x in b;
  }

  /** Which slots one page's freeing vacates: its leaf, and the table above if that was its only entry. */
  ghost predicate PageGone(cfg: Config, nodes: Forest, nodes': Forest, tree: nat, va: nat) {
    var p := TableSlot(tree, 1, va);
    p in nodes &&
    if nodes[p].kind.Page2MB? then
      var pde := TableSlot(tree, 2, va);
      nodes'.Keys == nodes.Keys - {p} - (if Empty(nodes - {p}, pde) then {pde} else {})
    else
      var s := LeafSlot(cfg, tree, nodes[p].kind, va);
      nodes'.Keys == nodes.Keys - {s} - (if Empty(nodes - {s}, p) then {p} else {})
  }

  // ---- ownership after a free ----

  /** No deleted leaf stood at the frame of a table that stays. */
  ghost predicate TablesSpared(n0: Forest, nodes: Forest, mem: Physical) {
    forall s, t :: s in n0 && s !in nodes && n0[s].reserved > 0 && !IsTable(n0[s].kind) && t in nodes && IsTable(nodes[t].kind) ==>
      ArenaFor(mem, n0[s]) != ArenaFor(mem, nodes[t]) || n0[s].phys != nodes[t].phys
  }

  /** A free keeps the ownership of the tables' frames if and only if no leaf it deleted stood at the frame of a table that stays. */
  lemma FreeKeepsTablesExactly(n0: Forest, mem0: Physical, nodes: Forest, mem: Physical, g: Layout)
    requires Sane(n0, mem0, g, Tables) && Shrunk(n0, nodes) && ReturnsFrames(n0, mem0, nodes, mem) && ValidPhysical(mem, g)
    ensures Sane(nodes, mem, g, Tables) <==> TablesSpared(n0, nodes, mem0)
  {
    hide ValidPhysical, InUse, ArenaOf, Released, Available;
    if TablesSpared(n0, nodes, mem0) {
      forall t | t in nodes ensures HoldsFrame(nodes, mem, Tables, t) {
        assert HoldsFrame(n0, mem0, Tables, t);
        if IsTable(nodes[t].kind) { StaysInUse(n0, mem0, nodes, g, Tables, t); }
      }
      forall t, u | t in nodes && u in nodes ensures FramesDiffer(nodes, mem, Tables, t, u) { assert FramesDiffer(n0, mem0, Tables, t, u); }
    } else {
      var s, t :| s in n0 && s !in nodes && n0[s].reserved > 0 && !IsTable(n0[s].kind) && t in nodes && IsTable(nodes[t].kind)
        && ArenaFor(mem0, n0[s]) == ArenaFor(mem0, nodes[t]) && n0[s].phys == nodes[t].phys;
      ReleasedBy(n0, nodes, mem0, s, FrameOf(nodes[t]));
      assert HoldsFrame(n0, mem0, Tables, t);
      assert !HoldsFrame(nodes, mem, Tables, t);
    }
  }

  lemma ReleasedBy(n0: Forest, nodes: Forest, mem: Physical, s: Slot, b: Block)
    requires s in n0 && s !in nodes && n0[s].reserved > 0 && n0[s].phys == b.addr
    ensures Released(n0, nodes, mem, ArenaFor(mem, n0[s]), b)
  {
    hide ArenaOf;
  }

  /** The frame of a survivor is not among those given back. */
  lemma StaysInUse(n0: Forest, mem0: Physical, nodes: Forest, g: Layout, who: Owners, t: Slot)
    requires Sane(n0, mem0, g, who) && Shrunk(n0, nodes) && t in nodes && Claims(who, nodes[t])
    requires who.Tables? ==> TablesSpared(n0, nodes, mem0)
    ensures !Released(n0, nodes, mem0, ArenaFor(mem0, nodes[t]), FrameOf(nodes[t]))
  {
    hide ValidPhysical, InUse, ArenaOf, AlignedPool;
    if Released(n0, nodes, mem0, ArenaFor(mem0, nodes[t]), FrameOf(nodes[t])) {
      var s :| s in n0 && s !in nodes && n0[s].reserved > 0 && ArenaFor(mem0, n0[s]) == ArenaFor(mem0, nodes[t]) && n0[s].phys == nodes[t].phys;
      assert HoldsFrame(n0, mem0, who, s) && HoldsFrame(n0, mem0, who, t) && FramesDiffer(n0, mem0, who, s, t);
      if Claims(who, n0[s]) {
        OneBlockAtAddress(mem0, g, ArenaFor(mem0, n0[s]), FrameOf(n0[s]), FrameOf(n0[t]));
      }
    }
  }

  lemma OneBlockAtAddress(mem: Physical, g: Layout, i: nat, b: Block, c: Block)
    requires ValidPhysical(mem, g) && InUse(mem, i, b) && InUse(mem, i, c) && b.addr == c.addr
    ensures b == c
  {
    hide Valid, OnPages;
    UsedDisjoint(mem[i], FirstAddress(i, g.bankSize, g.localMemory), b, c);
    UsedDisjoint(mem[i], FirstAddress(i, g.bankSize, g.localMemory), c, b);
  }

  /** Where every frame is accounted for, a free gives back exactly the deleted nodes' own frames, and the rest stay owned. */
  lemma FreeKeepsOwners(n0: Forest, mem0: Physical, nodes: Forest, mem: Physical, g: Layout)
    requires Sane(n0, mem0, g, Everyone) && Shrunk(n0, nodes) && ReturnsFrames(n0, mem0, nodes, mem) && ValidPhysical(mem, g)
    ensures Sane(nodes, mem, g, Everyone)
    ensures forall i, b :: InUse(mem0, i, b) && Released(n0, nodes, mem0, i, b) ==>
      exists s :: s in n0 && s !in nodes && n0[s].reserved > 0 && ArenaFor(mem0, n0[s]) == i && FrameOf(n0[s]) == b
  {
    hide ValidPhysical, InUse, ArenaOf, Released, Available, AlignedPool;
    forall i, b | InUse(mem0, i, b) && Released(n0, nodes, mem0, i, b)
      ensures PageAligned(b)
      ensures exists s :: s in n0 && s !in nodes && n0[s].reserved > 0 && ArenaFor(mem0, n0[s]) == i && FrameOf(n0[s]) == b {
      var s := OwnerReleased(n0, mem0, nodes, g, i, b);
    }
    forall t | t in nodes ensures HoldsFrame(nodes, mem, Everyone, t) {
      assert HoldsFrame(n0, mem0, Everyone, t);
      if nodes[t].reserved > 0 { StaysInUse(n0, mem0, nodes, g, Everyone, t); }
    }
    forall t, u | t in nodes && u in nodes ensures FramesDiffer(nodes, mem, Everyone, t, u) { assert FramesDiffer(n0, mem0, Everyone, t, u); }
    PoolAfterFree(n0, mem0, nodes, mem);
  }

  lemma OwnerReleased(n0: Forest, mem0: Physical, nodes: Forest, g: Layout, i: nat, b: Block) returns (s: Slot)
    requires Sane(n0, mem0, g, Everyone) && InUse(mem0, i, b) && Released(n0, nodes, mem0, i, b)
    ensures s in n0 && s !in nodes && n0[s].reserved > 0 && ArenaFor(mem0, n0[s]) == i && FrameOf(n0[s]) == b && PageAligned(b)
  {
    hide ValidPhysical, InUse, ArenaOf, AlignedPool;
    s :| s in n0 && s !in nodes && n0[s].reserved > 0 && ArenaFor(mem0, n0[s]) == i && n0[s].phys == b.addr;
    assert HoldsFrame(n0, mem0, Everyone, s);
    OneBlockAtAddress(mem0, g, i, FrameOf(n0[s]), b);
  }

  /** The pool stays aligned exactly when every block given back is. */
  lemma PoolAfterFree(n0: Forest, mem0: Physical, nodes: Forest, mem: Physical)
    requires AlignedPool(mem0) && ReturnsFrames(n0, mem0, nodes, mem)
    ensures AlignedPool(mem) <==> forall i, b :: InUse(mem0, i, b) && Released(n0, nodes, mem0, i, b) ==> PageAligned(b)
  {
    hide InUse, Released, Available, PageAligned;
  }
}
