/** The walk in the form the program has it: objects updated in place by two nested loops. */
module Walker {
  import opened Wrappers
  import opened Arithmetic
  import opened PhysicalMemory
  import opened PageTables
  import opened MemoryBanks
  import opened WalkModel
  import opened TreeFacts
  import opened WalkLookup

  /** Every GPU address space, and the memory their frames come from. */
  class TableHeap {
    var nodes: Forest
    var mem: Physical

    constructor (nodes: Forest, mem: Physical)
      ensures this.nodes == nodes && this.mem == mem
    {
      this.nodes := nodes;
      this.mem := mem;
    }
  }

  class PageTableWalker {
    const heap: TableHeap
    const tree: nat
    var entries: seq<PageInfo>
    var pageWalkEntries: PerLevel<PageEntryInfo>
    var pendingNodes: PerLevel<Slot>
    var emittedPending: set<Slot>
    var pages64KB: seq<nat>

    constructor (heap: TableHeap, tree: nat)
      ensures this.heap == heap && this.tree == tree && Now() == Start(tree, heap.nodes, heap.mem)
    {
      this.heap := heap;
      this.tree := tree;
      entries := [];
      pageWalkEntries := [[], [], [], [], []];
      pendingNodes := [[], [], [], [], []];
      emittedPending := {};
      pages64KB := [];
    }

    /** The walk so far, as a value. */
    ghost function Now(): Walk
      reads this, heap
    {
      Walk(tree, heap.nodes, heap.mem, entries, pageWalkEntries, pendingNodes, emittedPending, pages64KB)
    }

    method Emit(cfg: Config, s: Slot)
      requires s in heap.nodes && s.level < 5
      modifies this
      ensures Now() == WalkModel.Emit(cfg, old(Now()), s)
    {
      var info := PageEntryInfo(s, EntryAddress(heap.nodes, s), EntryOf(cfg, heap.nodes[s]));
      pageWalkEntries := pageWalkEntries[s.level := pageWalkEntries[s.level] + [info]];
    }

    /** Insert into emittedPending; true and remembered when it was not there. */
    method InsertPending(s: Slot) returns (inserted: bool)
      requires s.level < 5
      modifies this
      ensures inserted == (s !in old(emittedPending))
      ensures Now() == if inserted then Track(old(Now()), s) else old(Now())
    {
      inserted := s !in emittedPending;
      if inserted {
        emittedPending := emittedPending + {s};
        pendingNodes := pendingNodes[s.level := pendingNodes[s.level] + [s]];
      }
    }

    method SetNode(s: Slot, n: Node)
      modifies heap
      ensures heap.mem == old(heap.mem) && heap.nodes == old(heap.nodes)[s := n]
      ensures Now() == PutNode(old(Now()), s, n)
    {
      heap.nodes := heap.nodes[s := n];
    }

    /** An interior table, in its parent's bank. */
    method AllocateTable(s: Slot, kind: Kind)
      modifies heap
      ensures Now() == AddTable(old(Now()), s, kind)
    {
      var bank := if Parent(s) in heap.nodes then heap.nodes[Parent(s)].bank else 0;
      var (mem, phys) := PhysicalMemory.Reserve(heap.mem, bank, PAGE_4KB, PAGE_4KB);
      heap.mem := mem;
      SetNode(s, Node(kind, phys, bank, NO_ATTRIBUTES, PAGE_4KB, false, true));
    }

    /** A leaf: cloned, at a given address, or in a frame of its own. */
    method AllocateLeaf(q: Request, s: Slot, kind: Kind, size: nat, bank: nat, target: nat, clone: PageInfo)
      requires size > 0
      modifies heap
      ensures Now() == AddLeaf(q, old(Now()), s, kind, size, bank, target, clone)
      ensures s in heap.nodes && heap.nodes[s].kind == kind
    {
      if q.mode.Clone? {
        SetNode(s, Node(kind, RoundDown(clone.phys, size), clone.bank, q.attributes, 0, false, true));
      } else if q.mapping {
        SetNode(s, Node(kind, target, bank, q.attributes, 0, false, true));
      } else {
        var (mem, phys) := PhysicalMemory.Reserve(heap.mem, bank, size, size);
        heap.mem := mem;
        SetNode(s, Node(kind, phys, bank, q.attributes, size, false, true));
      }
    }

    /** Remap an existing leaf: each of address and bank only when it differs. Says whether anything changed. */
    method Remap(s: Slot, target: nat, bank: nat) returns (changed: bool)
      requires s in heap.nodes
      modifies heap
      ensures Now() == Retarget(old(Now()), s, target, bank)
      ensures changed == (old(heap.nodes[s].phys) != target || old(heap.nodes[s].bank) != bank)
    {
      changed := false;
      if heap.nodes[s].phys != target {
        SetNode(s, heap.nodes[s].(phys := target, pending := true));
        changed := true;
      }
      if heap.nodes[s].bank != bank {
        SetNode(s, heap.nodes[s].(bank := bank, pending := true));
        changed := true;
      }
      assert heap.nodes == old(heap.nodes)[s := heap.nodes[s]];
    }

    method IsPs64GroupComplete(cfg: Config, s: Slot) returns (complete: bool)
      ensures complete == GroupComplete(cfg, heap.nodes, s)
    {
      var first := Member(s, 0);
      if first !in heap.nodes { return false; }
      if heap.nodes[first].phys % PAGE_64KB != 0 { return false; }
      for i := 1 to 16
        invariant forall j {:trigger Member(s, j)} :: 0 <= j < i ==>
          && Member(s, j) in heap.nodes
          && heap.nodes[Member(s, j)].phys == heap.nodes[first].phys + j * PAGE_4KB
          && FlagsOf(cfg, heap.nodes[Member(s, j)]) == FlagsOf(cfg, heap.nodes[first])
      {
        var m := Member(s, i);
        if m !in heap.nodes || heap.nodes[m].phys != heap.nodes[first].phys + i * PAGE_4KB { return false; }
        if FlagsOf(cfg, heap.nodes[m]) != FlagsOf(cfg, heap.nodes[first]) { return false; }
      }
      return true;
    }

    /** Emit the members of a complete group that are not yet written as PS64. */
    method UpgradeGroup(cfg: Config, s: Slot)
      requires forall j {:trigger Member(s, j)} :: 0 <= j < 16 ==> Member(s, j) in heap.nodes
      modifies this, heap
      ensures Now() == UpgradeFrom(cfg, old(Now()), s, 0)
    {
      for i := 0 to 16
        invariant heap.nodes.Keys == old(heap.nodes.Keys)
        invariant UpgradeFrom(cfg, Now(), s, i) == UpgradeFrom(cfg, old(Now()), s, 0)
      {
        var m := Member(s, i);
        var before := heap.nodes[m];
        ghost var w := Now();
        if !before.ps64 { SetNode(m, before.(ps64 := true, pending := true)); }
        var isNewPending := heap.nodes[m].pending && m !in emittedPending;
        if !before.ps64 || isNewPending { Emit(cfg, m); }
        if isNewPending { var _ := InsertPending(m); }
        assert Now() == Upgrade(cfg, w, m);
      }
    }

    /** Clear and emit every member of a group that has just been broken. */
    method DowngradeGroup(cfg: Config, s: Slot)
      requires forall j {:trigger Member(s, j)} :: 0 <= j < 16 ==> Member(s, j) in heap.nodes
      modifies this, heap
      ensures Now() == DowngradeFrom(cfg, old(Now()), s, 0)
    {
      for i := 0 to 16
        invariant heap.nodes.Keys == old(heap.nodes.Keys)
        invariant DowngradeFrom(cfg, Now(), s, i) == DowngradeFrom(cfg, old(Now()), s, 0)
      {
        var m := Member(s, i);
        ghost var w := Now();
        SetNode(m, heap.nodes[m].(ps64 := false, pending := true));
        Emit(cfg, m);
        var _ := InsertPending(m);
        assert Now() == Downgrade(cfg, w, m);
      }
    }

    /** The PS64 part of a visit: true when the entry itself is still to be emitted. */
    method CheckPs64(cfg: Config, s: Slot, wasPs64Group: bool, size: nat) returns (emitEntry: bool)
      requires s in heap.nodes && s.level == 0
      requires wasPs64Group ==> forall j {:trigger Member(s, j)} :: 0 <= j < 16 ==> Member(s, j) in heap.nodes
      modifies this, heap
      ensures s in heap.nodes
      ensures emitEntry ==> Ps64Visit(cfg, old(Now()), s, wasPs64Group, size) == EmitOne(cfg, Now(), s)
      ensures !emitEntry ==> Ps64Visit(cfg, old(Now()), s, wasPs64Group, size) == Now()
    {
      var complete := IsPs64GroupComplete(cfg, s);
      if complete {
        UpgradeGroup(cfg, s);
        emitEntry := false;
      } else if wasPs64Group {
        DowngradeGroup(cfg, s);
        emitEntry := false;
      } else {
        if WillComplete(cfg, heap.nodes, s, size) { SetNode(s, heap.nodes[s].(ps64 := true, pending := true)); }
        emitEntry := true;
      }
    }

    /** Create the child if it is missing, and point a leaf at the given address in a mapping walk. */
    method Place(q: Request, s: Slot, leaf: bool, kind: Kind, pageSize: nat, bank: nat, target: nat, clone: PageInfo) returns (emitEntry: bool)
      requires pageSize > 0
      modifies this, heap
      ensures s in heap.nodes && old(heap.nodes.Keys) <= heap.nodes.Keys
      ensures Now() == PlaceEffect(q, old(Now()), s, leaf, kind, pageSize, bank, target, clone)
      ensures emitEntry ==> s !in old(heap.nodes) || q.mapping
      ensures s !in old(heap.nodes) ==> emitEntry
    {
      emitEntry := false;
      if s !in heap.nodes {
        if leaf { AllocateLeaf(q, s, kind, pageSize, bank, target, clone); } else { AllocateTable(s, kind); }
        // 64KB system pages have to be announced before their entries
        if leaf && kind.Page? && q.mode.Reserve? && q.banks == 0 && pageSize == PAGE_64KB {
          pages64KB := pages64KB + [heap.nodes[s].phys];
        }
        emitEntry := true;
      }
      if q.mapping && leaf {
        var changed := Remap(s, target, bank);
        emitEntry := emitEntry || changed;
      }
    }

    /** Emit the entry if asked to, or if it is pending and not yet out; 4KB entries under PS64 follow their group. */
    method Stream(cfg: Config, q: Request, s: Slot, checkPs64: bool, wasPs64Group: bool, emit: bool, size: nat)
      requires s in heap.nodes && s.level < 5 && (checkPs64 ==> s.level == 0)
      requires checkPs64 && wasPs64Group ==> forall j {:trigger Member(s, j)} :: 0 <= j < 16 ==> Member(s, j) in heap.nodes
      modifies this, heap
      ensures Now() == StreamEffect(cfg, old(Now()), s, checkPs64, wasPs64Group, emit || q.mapping, size)
    {
      var emitEntry := emit;
      if checkPs64 {
        emitEntry := CheckPs64(cfg, s, wasPs64Group, size);
      } else {
        emitEntry := emitEntry || q.mapping;
        if heap.nodes[s].pending {
          var inserted := InsertPending(s);
          emitEntry := emitEntry || inserted;
        }
      }
      if emitEntry {
        Emit(cfg, s);
        if checkPs64 && heap.nodes[s].pending { var _ := InsertPending(s); }
      }
    }

    /** One turn of the page loop: from the root down to the leaf of `va`, creating what is missing. */
    method VisitPage(cfg: Config, q: Request, va: nat, size: nat, target: nat, clone: PageInfo)
      returns (child: Option<Slot>, pageSize: nat, target': nat)
      requires Ready(cfg, q, heap.nodes, va) && q.tree == tree && (q.mapping ==> q.mode.Reserve?)
      modifies this, heap
      ensures PageVisit(cfg, q, old(Now()), va, size, target, clone) == Visit(Now(), child, pageSize, target')
    {
      hide WellFormed, GroupComplete, BankAt, Index, LeafSlot, Span, Rest, RoundDown, PageVisit, PlaceEffect, StreamEffect, Ps64Applicable,
           KindFits, InRange;
      pageSize, target' := q.pageSize, target;
      var leafLevel := if q.pageSize == PAGE_2MB then 1 else 0;
      var level: int := cfg.levels - 1;
      var bank := BankAt(q, va);
      child := Some(Root(cfg, q.tree));
      ghost var whole := PageVisit(cfg, q, Now(), va, size, target, clone);
      RootIsTableSlot(cfg, q.tree, va);
      RestIsPageVisit(cfg, q, Now(), va, size, target, clone);

      while level >= leafLevel
        invariant -1 <= level <= cfg.levels - 1 && 0 <= leafLevel <= 1 && level >= leafLevel - 1
        invariant level >= leafLevel ==> Ready(cfg, q, heap.nodes, va)
        invariant level >= leafLevel ==> child == Some(TableSlot(q.tree, level + 1, va)) && child.value in heap.nodes
        invariant level >= 1 ==> pageSize == q.pageSize && leafLevel == (if q.pageSize == PAGE_2MB then 1 else 0) && target' == target
        invariant level == 0 && leafLevel == 0 ==> IsTable(heap.nodes[child.value].kind)
        invariant level >= leafLevel ==> whole == Rest(cfg, q, Now(), va, size, target', clone, level)
        invariant level < leafLevel ==> whole == Visit(Now(), child, pageSize, target')
        decreases level + 1
      {
        var parent := child.value;
        var kind := heap.nodes[parent].kind;
        ghost var w, before := Now(), target';
        // an existing PTE determines the actual page size
        if level == 0 && PteSize(kind) != pageSize { pageSize := PteSize(kind); }
        var s := Child(parent, Index(cfg, kind, va));
        SlotReached(cfg, q, heap.nodes, va, level);
        RestStops(cfg, q, w, va, size, target', clone, level);
        child := if s in heap.nodes then Some(s) else None;
        if child.Some? && level == 1 && heap.nodes[s].kind.Page2MB? {
          pageSize, leafLevel := PAGE_2MB, 1;
          if !q.mapping { break; }
        }
        // a table for smaller pages is in the way: use it, for this PDE only
        if child.Some? && level == 1 && pageSize == PAGE_2MB && !heap.nodes[s].kind.Page2MB? {
          pageSize, leafLevel := PAGE_64KB, 0;
        }
        if q.mapping && level == leafLevel && pageSize == PAGE_2MB && target' % PAGE_2MB != 0 {
          target' := RoundDown(target', PAGE_2MB) + PAGE_2MB;
        }
        var checkPs64 := Ps64Applicable(cfg, q) && level == 0 && PteSize(kind) == PAGE_4KB;
        var wasPs64Group := false;
        if checkPs64 && Member(s, 0) in heap.nodes && heap.nodes[Member(s, 0)].ps64 {
          wasPs64Group := IsPs64GroupComplete(cfg, s);
          CompleteHasAll(cfg, heap.nodes, s);
        }
        if child.None? && q.mode.Expect? { break; }
        child := Some(s);
        var newKind := if level == leafLevel then (if level == 1 then Page2MB else Page)
                       else if level == 1 then PteKind(pageSize) else TableKind(level);
        LevelDone(cfg, q, w, va, size, before, clone, level, s, level == leafLevel, newKind, pageSize, checkPs64, wasPs64Group);
        var emitEntry := Place(q, s, level == leafLevel, newKind, pageSize, bank, target', clone);
        Stream(cfg, q, s, checkPs64, wasPs64Group, emitEntry, size);
        level := level - 1;
      }
    }

    /** walkMemory: page after page until the size is used up, a hole stops an Expect walk, or cloned pages run out. */
    method WalkMemory(cfg: Config, q: Request, physicalAddress: nat) returns (ending: Ending)
      requires Sound(cfg, q, heap.nodes) && FitsIn(cfg, q.gfx, q.size) && q.tree == tree && (q.mapping ==> q.mode.Reserve?)
      modifies this, heap
      ensures (Now(), ending) == WalkFrom(cfg, q, old(Now()), q.gfx, q.size, physicalAddress, 0)
    {
      hide PageVisit, WalkFrom, WellFormed, Visited, FitsIn, BankAt, Now;
      var size: nat, gfxAddress: nat, target: nat := q.size, q.gfx, physicalAddress;
      var clonePageInfoIndex := 0;
      ghost var whole := WalkFrom(cfg, q, Now(), q.gfx, q.size, physicalAddress, 0);
      while size > 0
        invariant Sound(cfg, q, heap.nodes) && FitsIn(cfg, gfxAddress, size)
        invariant whole == WalkFrom(cfg, q, Now(), gfxAddress, size, target, clonePageInfoIndex)
      {
        NowNodes();
        // the program would read past the end of the cloned list here
        if q.mode.Clone? && clonePageInfoIndex >= |q.infos| {
          WalkOverrun(cfg, q, Now(), gfxAddress, size, target, clonePageInfoIndex);
          return Overrun;
        }
        var clone := InfoAt(q, clonePageInfoIndex);
        ghost var w := Now();
        TurnFacts(cfg, q, w, gfxAddress, size, target, clone);
        WalkTurn(cfg, q, w, gfxAddress, size, target, clonePageInfoIndex);
        var child, pageSize, realigned := VisitPage(cfg, q, gfxAddress, size, target, clone);
        NowNodes();
        clonePageInfoIndex := clonePageInfoIndex + 1;
        if child.None? { return Hole; }
        var sizeThisIteration := Min(pageSize - gfxAddress % pageSize, size);
        RecordPage(cfg, q, gfxAddress, size, child.value, pageSize, realigned);
        NowNodes();
        if pageSize == PAGE_2MB {
          // a 2MB page uses up a whole 2MB-aligned stretch of physical memory
          target := RoundDown(realigned, PAGE_2MB) + PAGE_2MB;
        } else {
          target := realigned + sizeThisIteration;
        }
        gfxAddress := gfxAddress + sizeThisIteration;
        size := size - sizeThisIteration;
      }
      WalkOfNothing(cfg, q, Now(), gfxAddress, target, clonePageInfoIndex);
      return Completed;
    }

    lemma NowNodes()
      ensures Now().nodes == heap.nodes
    {
    }

    /** Record the page information of the leaf just visited. */
    method RecordPage(cfg: Config, q: Request, va: nat, size: nat, leaf: Slot, pageSize: nat, target: nat)
      requires leaf in heap.nodes && pageSize > 0 && q.pageSize > 0
      modifies this
      ensures Now() == Report(Visit(old(Now()), Some(leaf), pageSize, target), va, size, BankAt(q, va))
    {
      hide BankAt;
      var n := heap.nodes[leaf];
      entries := entries + [PageInfo(n.phys + va % pageSize, Min(size, pageSize - va % pageSize), n.bank != 0, BankAt(q, va))];
    }
  }

  /** Emit an entry of a 4KB page and remember it when pending. */
  ghost function EmitOne(cfg: Config, w: Walk, s: Slot): Walk
    requires s in w.nodes && s.level < 5
  {
    var w1 := WalkModel.Emit(cfg, w, s);
    if w1.nodes[s].pending && s !in w1.emitted then Track(w1, s) else w1
  }

  /** What is left of a page visit when the entries at `level` and below are still to come. */
  ghost function Rest(cfg: Config, q: Request, w: Walk, va: nat, size: nat, target: nat, info: PageInfo, level: nat): Visit
    requires q.pageSize > 0 && level <= 4 && (level == 0 ==> TableSlot(q.tree, 1, va) in w.nodes)
  {
    if level == 0 then PteStep(cfg, q, w, va, size, BankAt(q, va), target, info)
    else
      var (w1, found) := TablesDown(cfg, q, w, va, level);
      if found then PdeStep(cfg, q, w1, va, size, BankAt(q, va), target, info) else Visit(w1, None, q.pageSize, target)
  }

  /** The child slot of a table on the path is the next slot of the path. */
  lemma SlotReached(cfg: Config, q: Request, nodes: Forest, va: nat, level: nat)
    requires Ready(cfg, q, nodes, va) && level < cfg.levels && TableSlot(q.tree, level + 1, va) in nodes
    requires level == 0 ==> IsTable(nodes[TableSlot(q.tree, 1, va)].kind)
    ensures var parent := TableSlot(q.tree, level + 1, va); var s := Child(parent, Index(cfg, nodes[parent].kind, va));
      && s.level == level && Parent(s) == parent && s.tree == q.tree
      && s == (if level == 0 then LeafSlot(cfg, q.tree, nodes[parent].kind, va) else TableSlot(q.tree, level, va))
  {
    hide WellFormed, Span;
    if level >= 1 {
      TableAbove(cfg, nodes, TableSlot(q.tree, level + 1, va));
      ChildIsTableSlot(cfg, q.tree, level, va);
    } else {
      LeafSlotParent(cfg, q.tree, nodes[TableSlot(q.tree, 1, va)].kind, va);
    }
  }

  lemma RestIsPageVisit(cfg: Config, q: Request, w: Walk, va: nat, size: nat, target: nat, info: PageInfo)
    requires ValidConfig(cfg) && q.pageSize > 0
    ensures Rest(cfg, q, w, va, size, target, info, cfg.levels - 1) == PageVisit(cfg, q, w, va, size, target, info)
  {
    hide TablesDown, PdeStep, BankAt;
  }

  ghost function PlaceEffect(q: Request, w: Walk, s: Slot, leaf: bool, kind: Kind, pageSize: nat, bank: nat, target: nat, info: PageInfo): (r: Walk)
    requires pageSize > 0
    ensures s in r.nodes
  {
    if leaf then PlaceLeaf(q, w, s, kind, pageSize, bank, target, info) else if s in w.nodes then w else AddTable(w, s, kind)
  }

  ghost function StreamEffect(cfg: Config, w: Walk, s: Slot, checkPs64: bool, wasPs64Group: bool, force: bool, size: nat): Walk
    requires s in w.nodes && s.level < 5
  {
    if checkPs64 then Ps64Visit(cfg, w, s, wasPs64Group, size) else PlainVisit(cfg, w, s, force)
  }

  /** The ways the descent stops early. */
  lemma RestStops(cfg: Config, q: Request, w: Walk, va: nat, size: nat, target: nat, info: PageInfo, level: nat)
    requires q.pageSize > 0 && level <= 4 && TableSlot(q.tree, level + 1, va) in w.nodes
    ensures var kind := w.nodes[TableSlot(q.tree, level + 1, va)].kind;
      var s := if level == 0 then LeafSlot(cfg, q.tree, kind, va) else TableSlot(q.tree, level, va);
      var here := Rest(cfg, q, w, va, size, target, info, level);
      && (s !in w.nodes && q.mode.Expect? ==> here == Visit(w, None, if level == 0 then PteSize(kind) else q.pageSize, target))
      && (level == 1 && s in w.nodes && w.nodes[s].kind.Page2MB? && !q.mapping ==> here == Visit(w, Some(s), PAGE_2MB, target))
  {
    hide LeafSlot, PlainVisit, AddTable, VisitLeaf, PlaceLeaf, BankAt;
  }

  /** The cursor used for a leaf at this level. */
  function LeafTarget(q: Request, level: nat, leaf: bool, pageSize: nat, target: nat): nat {
    if q.mapping && leaf && pageSize == PAGE_2MB && level == 1 then Realign(target) else target
  }

  /** The locals the loop body has arrived at when it comes to place and stream the entry. */
  ghost predicate LeafPart(cfg: Config, q: Request, w: Walk, va: nat, level: nat, s: Slot, leaf: bool, kind: Kind, pageSize: nat,
                           checkPs64: bool, wasPs64Group: bool)
    requires level <= 4 && TableSlot(q.tree, level + 1, va) in w.nodes
  {
    var above := w.nodes[TableSlot(q.tree, level + 1, va)].kind;
    if level == 0 then
      && s == LeafSlot(cfg, q.tree, above, va) && leaf && kind.Page? && pageSize == PteSize(above)
      && checkPs64 == (Ps64Applicable(cfg, q) && pageSize == PAGE_4KB) && (checkPs64 ==> wasPs64Group == WasGroup(cfg, w.nodes, s))
    else
      && s == TableSlot(q.tree, level, va) && !checkPs64
      && if level >= 2 then !leaf && kind == TableKind(level)
         else if s in w.nodes && w.nodes[s].kind.Page2MB? then leaf && kind.Page2MB? && pageSize == PAGE_2MB && q.mapping
         else if s !in w.nodes && q.pageSize == PAGE_2MB then leaf && kind.Page2MB? && pageSize == PAGE_2MB
         else !leaf && (s !in w.nodes ==> kind == PteKind(q.pageSize))
  }

  /** One level of the descent, as an equation; an interior level leaves the tree ready for the next. */
  ghost predicate LevelEquation(cfg: Config, q: Request, w: Walk, va: nat, size: nat, target: nat, info: PageInfo, level: nat,
                                s: Slot, leaf: bool, kind: Kind, pageSize: nat, checkPs64: bool, wasPs64Group: bool)
    requires q.pageSize > 0 && pageSize > 0 && level <= 4 && s.level < 5 && TableSlot(q.tree, level + 1, va) in w.nodes
  {
    var target' := LeafTarget(q, level, leaf, pageSize, target);
    var w1 := PlaceEffect(q, w, s, leaf, kind, pageSize, BankAt(q, va), target', info);
    var w2 := StreamEffect(cfg, w1, s, checkPs64, wasPs64Group, s !in w.nodes || q.mapping, size);
    var here := Rest(cfg, q, w, va, size, target, info, level);
    && (leaf ==> here == Visit(w2, Some(s), pageSize, target'))
    && (!leaf ==>
          && level >= 1 && Ready(cfg, q, w2.nodes, va) && s in w2.nodes && (level == 1 ==> IsTable(w2.nodes[s].kind))
          && (level == 1 ==> TableSlot(q.tree, 1, va) in w2.nodes)
          && here == Rest(cfg, q, w2, va, size, target, info, level - 1))
  }

  lemma PteLevelDone(cfg: Config, q: Request, w: Walk, va: nat, size: nat, target: nat, info: PageInfo,
                     s: Slot, leaf: bool, kind: Kind, pageSize: nat, checkPs64: bool, wasPs64Group: bool)
    requires Ready(cfg, q, w.nodes, va) && TableSlot(q.tree, 1, va) in w.nodes && pageSize > 0 && s.level < 5
    requires LeafPart(cfg, q, w, va, 0, s, leaf, kind, pageSize, checkPs64, wasPs64Group) && (s in w.nodes || !q.mode.Expect?)
    ensures LevelEquation(cfg, q, w, va, size, target, info, 0, s, leaf, kind, pageSize, checkPs64, wasPs64Group)
  {
    hide LeafSlot, PlaceLeaf, PlainVisit, Ps64Visit, WellFormed, WasGroup, BankAt, Realign, TablesDown, PdeStep, AddTable;
  }

  lemma PdeLevelDone(cfg: Config, q: Request, w: Walk, va: nat, size: nat, target: nat, info: PageInfo,
                     s: Slot, leaf: bool, kind: Kind, pageSize: nat, checkPs64: bool, wasPs64Group: bool)
    requires Ready(cfg, q, w.nodes, va) && TableSlot(q.tree, 2, va) in w.nodes && pageSize > 0 && s.level < 5
    requires LeafPart(cfg, q, w, va, 1, s, leaf, kind, pageSize, checkPs64, wasPs64Group) && (s in w.nodes || !q.mode.Expect?)
    ensures LevelEquation(cfg, q, w, va, size, target, info, 1, s, leaf, kind, pageSize, checkPs64, wasPs64Group)
  {
    hide LeafSlot, PlaceLeaf, PlainVisit, Ps64Visit, WellFormed, WasGroup, BankAt, Realign, PteStep, AddTable, KindFits;
    if !leaf { PdeKindFits(cfg, s, kind); TableKeepsReady(cfg, q, w, va, s, kind); }
    if s in w.nodes { KindAtPde(cfg, w.nodes, s); }
    assert TablesDown(cfg, q, w, va, 1) == (w, true);
  }

  lemma PdeKindFits(cfg: Config, s: Slot, kind: Kind)
    requires s.level == 1
    ensures forall n :: kind == PteKind(n) ==> IsTable(kind) && KindFits(cfg, s, kind)
  {
  }

  lemma TableLevelDone(cfg: Config, q: Request, w: Walk, va: nat, size: nat, target: nat, info: PageInfo, level: nat,
                       s: Slot, leaf: bool, kind: Kind, pageSize: nat, checkPs64: bool, wasPs64Group: bool)
    requires Ready(cfg, q, w.nodes, va) && 2 <= level < cfg.levels && TableSlot(q.tree, level + 1, va) in w.nodes && pageSize > 0 && s.level < 5
    requires LeafPart(cfg, q, w, va, level, s, leaf, kind, pageSize, checkPs64, wasPs64Group) && (s in w.nodes || !q.mode.Expect?)
    ensures LevelEquation(cfg, q, w, va, size, target, info, level, s, leaf, kind, pageSize, checkPs64, wasPs64Group)
  {
    hide LeafSlot, PlaceLeaf, PlainVisit, Ps64Visit, WellFormed, WasGroup, BankAt, Realign, PteStep, PdeStep, AddTable;
    TableKeepsReady(cfg, q, w, va, s, kind);
  }

  lemma LevelDone(cfg: Config, q: Request, w: Walk, va: nat, size: nat, target: nat, info: PageInfo, level: nat,
                  s: Slot, leaf: bool, kind: Kind, pageSize: nat, checkPs64: bool, wasPs64Group: bool)
    requires Ready(cfg, q, w.nodes, va) && level < cfg.levels && TableSlot(q.tree, level + 1, va) in w.nodes && pageSize > 0 && s.level < 5
    requires LeafPart(cfg, q, w, va, level, s, leaf, kind, pageSize, checkPs64, wasPs64Group)
    requires s in w.nodes || !q.mode.Expect?
    ensures LevelEquation(cfg, q, w, va, size, target, info, level, s, leaf, kind, pageSize, checkPs64, wasPs64Group)
  {
    hide LeafPart, LevelEquation, WellFormed;
    if level == 0 {
      PteLevelDone(cfg, q, w, va, size, target, info, s, leaf, kind, pageSize, checkPs64, wasPs64Group);
    } else if level == 1 {
      PdeLevelDone(cfg, q, w, va, size, target, info, s, leaf, kind, pageSize, checkPs64, wasPs64Group);
    } else {
      TableLevelDone(cfg, q, w, va, size, target, info, level, s, leaf, kind, pageSize, checkPs64, wasPs64Group);
    }
  }

  lemma CompleteHasAll(cfg: Config, nodes: Forest, s: Slot)
    ensures GroupComplete(cfg, nodes, s) ==> forall j {:trigger Member(s, j)} :: 0 <= j < 16 ==> Member(s, j) in nodes
  {
    hide FlagsOf;
  }

  /** The table on the path at this level, found or made. */
  lemma TableKeepsReady(cfg: Config, q: Request, w: Walk, va: nat, s: Slot, kind: Kind)
    requires Ready(cfg, q, w.nodes, va) && 1 <= s.level < cfg.levels && s == TableSlot(q.tree, s.level, va)
    requires TableSlot(q.tree, s.level + 1, va) in w.nodes && (s !in w.nodes ==> IsTable(kind) && KindFits(cfg, s, kind))
    ensures var w1 := if s in w.nodes then w else AddTable(w, s, kind);
      Ready(cfg, q, w1.nodes, va) && (s.level == 1 && !(s in w.nodes && w.nodes[s].kind.Page2MB?) ==> IsTable(w1.nodes[s].kind))
  {
    hide WellFormed, Grown, AddTable, Span;
    ChildIsTableSlot(cfg, q.tree, s.level, va);
    TableAbove(cfg, w.nodes, TableSlot(q.tree, s.level + 1, va));
    if s in w.nodes {
      if s.level == 1 { KindAtPde(cfg, w.nodes, s); }
    } else {
      AddTableFacts(cfg, w, va, s, kind);
      GrownStaysReady(cfg, q, va, w.nodes, AddTable(w, s, kind).nodes);
    }
  }
}
