/** The stream object: the flags that gate its two sinks, the commit of a walk, and the loop that frees a range. */
module AubStreamObjects {
  import opened Wrappers
  import opened Arithmetic
  import opened PhysicalMemory
  import opened PageTables
  import opened WalkModel
  import opened TreeFacts
  import opened WalkLookup
  import opened FrameOwnership
  import opened Streams
  import opened FreeModel
  import opened FreeFacts
  import opened FreeExact
  import opened System
  import opened Walker
  import Ps64Freeing

  datatype StreamKind = OneSink | AubAndTbx | AubAndShm

  /** `first` is the only sink, or the AUB file; `second` is the TBX side. */
  class AubStream {
    const kind: StreamKind
    var isAubFileStreamPaused: bool
    var isTbxStreamBlockedForMemWrites: bool
    var first: Sink
    var second: Sink

    constructor (kind: StreamKind)
      ensures this.kind == kind && Committed(Contents())
      ensures forall sink :: sink in Sinks(Contents()) ==> sink == map[]
    {
      this.kind := kind;
      isAubFileStreamPaused := false;
      isTbxStreamBlockedForMemWrites := false;
      first := map[];
      second := map[];
    }

    ghost function Contents(): Stream
      reads this
    {
      match kind
      case OneSink => Plain(first)
      case AubAndTbx => AubTbx(isAubFileStreamPaused, first, second)
      case AubAndShm => AubShm(isAubFileStreamPaused, isTbxStreamBlockedForMemWrites, first, second)
    }

    method PauseAubFileStream(isPaused: bool)
      modifies this
      ensures Contents() == Pause(old(Contents()), isPaused)
    {
      isAubFileStreamPaused := isPaused;
    }

    method BlockMemWritesViaTbxStream(isBlocked: bool)
      modifies this
      ensures Contents() == Block(old(Contents()), isBlocked)
    {
      isTbxStreamBlockedForMemWrites := isBlocked;
    }

    method ArePageTableWritesFullyCommitted() returns (committed: bool)
      ensures committed == Committed(Contents())
    {
      match kind
      case OneSink => return true;
      case AubAndTbx => return !isAubFileStreamPaused;
      case AubAndShm => return !isAubFileStreamPaused && !isTbxStreamBlockedForMemWrites;
    }

    /** The sinks that are listening take the entries in order. */
    method WriteDiscontiguousPages(local: bool, table: seq<PageEntryInfo>)
      modifies this
      ensures Contents() == WriteEntries(old(Contents()), local, table)
    {
      if kind.OneSink? || !isAubFileStreamPaused { first := WriteSink(first, local, table); }
      if kind.AubAndTbx? || (kind.AubAndShm? && !isTbxStreamBlockedForMemWrites) { second := WriteSink(second, local, table); }
    }

    static method WriteSink(sink: Sink, local: bool, table: seq<PageEntryInfo>) returns (r: Sink)
      ensures r == Store(sink, local, table)
    {
      r := sink;
      for i := 0 to |table|
        invariant Store(r, local, table[i..]) == Store(sink, local, table)
      {
        r := r[Location(local, table[i].address) := table[i].entry];
        assert table[i..][1..] == table[i + 1..];
      }
    }

    /** Stream every level of a walk, the highest first; once every sink has taken them, nothing emitted is pending. */
    method WritePageWalkEntries(cfg: Config, walker: PageTableWalker)
      modifies this, walker.heap
      ensures (Contents(), walker.heap.nodes) == Commit(cfg, old(Contents()), old(walker.Now()))
      ensures walker.heap.mem == old(walker.heap.mem)
    {
      var local := RootLocal(cfg, walker.heap.nodes, walker.tree);
      var level := 5;
      while level > 0
        invariant 0 <= level <= 5 && walker.heap.nodes == old(walker.heap.nodes) && walker.heap.mem == old(walker.heap.mem)
        invariant WriteLevels(Contents(), local, walker.pageWalkEntries, level) == WriteLevels(old(Contents()), local, walker.pageWalkEntries, 5)
      {
        level := level - 1;
        WriteDiscontiguousPages(local, walker.pageWalkEntries[level]);
      }
      var committed := ArePageTableWritesFullyCommitted();
      FlagsStay(old(Contents()), local, walker.pageWalkEntries);
      ghost var written := Contents();
      if committed {
        for i := 0 to 5
          invariant ClearLevels(walker.heap.nodes, walker.pendingNodes, i) == ClearLevels(old(walker.heap.nodes), walker.pendingNodes, 0)
          invariant walker.heap.mem == old(walker.heap.mem) && Contents() == written
        {
          ClearNodes(walker.heap, walker.pendingNodes[i]);
        }
      }
    }

    static method ClearNodes(heap: TableHeap, list: seq<Slot>)
      modifies heap
      ensures heap.nodes == ClearPending(old(heap.nodes), list) && heap.mem == old(heap.mem)
    {
      for i := 0 to |list|
        invariant ClearPending(heap.nodes, list[i..]) == ClearPending(old(heap.nodes), list) && heap.mem == old(heap.mem)
      {
        if list[i] in heap.nodes { heap.nodes := heap.nodes[list[i] := heap.nodes[list[i]].(pending := false)]; }
        assert list[i..][1..] == list[i + 1..];
      }
    }

    /** freeMemory: page after page, collecting cleared entries of three levels; a hole above the leaves ends it
        with nothing streamed. */
    method FreeMemory(cfg: Config, heap: TableHeap, tree: nat, gfxAddress: nat, size: nat) returns (done: bool)
      requires ValidConfig(cfg) && WellFormed(cfg, heap.nodes) && Root(cfg, tree) in heap.nodes && FitsIn(cfg, gfxAddress, size)
      modifies this, heap
      ensures var (f, ran) := FreeModel.FreeMemory(cfg, old(heap.nodes), old(heap.mem), tree, gfxAddress, size);
        && done == ran && heap.nodes == f.nodes && heap.mem == f.mem
        && Contents() == if ran then FreeCommit(cfg, old(Contents()), old(heap.nodes), f) else old(Contents())
    {
      hide FreeFrom, WellFormed, FreePage, PageStep, Span, RootLocal;
      var local := RootLocal(cfg, heap.nodes, tree);
      var pageWalkEntries: PerLevel<PageEntryInfo> := [[], [], [], [], []];
      var va: nat, left: nat := gfxAddress, size;
      ghost var whole := FreeModel.FreeMemory(cfg, heap.nodes, heap.mem, tree, gfxAddress, size);
      while left > 0
        invariant va + left == gfxAddress + size && FitsIn(cfg, va, left)
        invariant WellFormed(cfg, heap.nodes) && Root(cfg, tree) in heap.nodes
        invariant whole == FreeFrom(cfg, Freeing(tree, heap.nodes, heap.mem, pageWalkEntries), va, left, gfxAddress, gfxAddress + size)
        invariant Contents() == old(Contents())
      {
        ghost var f := Freeing(tree, heap.nodes, heap.mem, pageWalkEntries);
        FreeTurn(cfg, f, va, left, gfxAddress, gfxAddress + size);
        InsideTree(cfg, va, left, left);
        var found := Descend(cfg, heap, tree, va);
        if !found { return false; }
        var unit := PageSizeAt(heap.nodes[TableSlot(tree, 1, va)].kind);
        FreePageStaysWellFormed(cfg, f, va, left, gfxAddress, gfxAddress + size);
        pageWalkEntries := ClearPage(cfg, heap, tree, pageWalkEntries, va, left, gfxAddress, gfxAddress + size);
        var sizeThisIteration := PageStep(unit, va, left);
        InsideTree(cfg, va, left, sizeThisIteration);
        va := va + sizeThisIteration;
        left := left - sizeThisIteration;
      }
      FreeNothing(cfg, Freeing(tree, heap.nodes, heap.mem, pageWalkEntries), va, gfxAddress, gfxAddress + size);
      WriteDiscontiguousPages(local, pageWalkEntries[0]);
      WriteDiscontiguousPages(local, pageWalkEntries[1]);
      // the third list only when a PDE was removed
      if pageWalkEntries[2] != [] {
        WriteDiscontiguousPages(local, pageWalkEntries[2]);
      }
      return true;
    }

    /** From the root to the PDE entry; false at a hole. */
    static method Descend(cfg: Config, heap: TableHeap, tree: nat, va: nat) returns (found: bool)
      requires ValidConfig(cfg) && WellFormed(cfg, heap.nodes) && Root(cfg, tree) in heap.nodes && InRange(cfg, va)
      ensures found == (TableSlot(tree, 1, va) in heap.nodes)
    {
      hide WellFormed, Span;
      RootIsTableSlot(cfg, tree, va);
      var level := cfg.levels - 1;
      while level >= 1
        invariant 0 <= level <= cfg.levels - 1 && TableSlot(tree, level + 1, va) in heap.nodes
      {
        var parent := TableSlot(tree, level + 1, va);
        TableAbove(cfg, heap.nodes, parent);
        ChildIsTableSlot(cfg, tree, level, va);
        var s := Child(parent, Index(cfg, heap.nodes[parent].kind, va));
        if s !in heap.nodes {
          NothingBelow(cfg, heap.nodes, tree, va, level);
          return false;
        }
        level := level - 1;
      }
      return true;
    }

    /** One page: its leaf, the PS64 entries beside it, and the table above if that emptied it. */
    static method ClearPage(cfg: Config, heap: TableHeap, tree: nat, table: PerLevel<PageEntryInfo>, va: nat, size: nat, start: nat, end: nat)
      returns (r: PerLevel<PageEntryInfo>)
      requires TableSlot(tree, 1, va) in heap.nodes
      modifies heap
      ensures Freeing(tree, heap.nodes, heap.mem, r)
        == FreePage(cfg, Freeing(tree, old(heap.nodes), old(heap.mem), table), va, size, start, end)
    {
      hide LeafSlot, Empty;
      var p := TableSlot(tree, 1, va);
      if heap.nodes[p].kind.Page2MB? {
        r := RemoveNode(heap, tree, table, p);
        r := RemoveIfEmpty(heap, tree, r, TableSlot(tree, 2, va));
      } else {
        var s := LeafSlot(cfg, tree, heap.nodes[p].kind, va);
        LeafSlotLevel(cfg, tree, heap.nodes[p].kind, va);
        r := ClearLeaf(cfg, heap, tree, table, s, va, size, start, end);
        r := RemoveIfEmpty(heap, tree, r, p);
      }
    }

    /** Clear the entry, mend what is left of its PS64 group, and only then delete the page. */
    static method ClearLeaf(cfg: Config, heap: TableHeap, tree: nat, table: PerLevel<PageEntryInfo>, s: Slot, va: nat, size: nat, start: nat, end: nat)
      returns (r: PerLevel<PageEntryInfo>)
      requires s.level == 0
      modifies heap
      ensures Freeing(tree, heap.nodes, heap.mem, r)
        == FreeLeaf(cfg, Freeing(tree, old(heap.nodes), old(heap.mem), table), s, va, size, start, end)
    {
      hide UnmarkRange, EntryOf, FreeFrame;
      r := table;
      if s in heap.nodes {
        var child := heap.nodes[s];
        ghost var f := Freeing(tree, heap.nodes, heap.mem, table);
        r := r[0 := r[0] + [PageEntryInfo(s, EntryAddress(heap.nodes, s), Cleared)]];
        heap.nodes := heap.nodes - {s};
        ghost var cleared := Freeing(tree, heap.nodes, heap.mem, r);
        if child.ps64 {
          if va == start && start % PAGE_64KB != 0 {
            r := UnmarkEntries(cfg, heap, tree, r, GroupBase(s), s.num);
          }
          if size <= PAGE_4KB && end % PAGE_64KB != 0 {
            r := UnmarkEntries(cfg, heap, tree, r, s.num + 1, GroupBase(s) + 16);
          }
          assert Freeing(tree, heap.nodes, heap.mem, r) == Mend(cfg, cleared, s, va, size, start, end);
        }
        if child.reserved > 0 { heap.mem := FreeFrame(heap.mem, child.bank, child.phys); }
        assert Delete(f, s) == cleared.(mem := heap.mem);
        MendIgnoresMemory(cfg, cleared, heap.mem, s, va, size, start, end);
      }
    }

    static method UnmarkEntries(cfg: Config, heap: TableHeap, tree: nat, table: PerLevel<PageEntryInfo>, low: nat, high: nat)
      returns (r: PerLevel<PageEntryInfo>)
      modifies heap
      ensures Freeing(tree, heap.nodes, heap.mem, r)
        == UnmarkRange(cfg, Freeing(tree, old(heap.nodes), old(heap.mem), table), low, high)
      ensures heap.mem == old(heap.mem)
    {
      hide EntryOf, EntryAddress;
      r := table;
      var i := low;
      while i < high
        invariant UnmarkRange(cfg, Freeing(tree, heap.nodes, heap.mem, r), i, high)
          == UnmarkRange(cfg, Freeing(tree, old(heap.nodes), old(heap.mem), table), low, high)
        invariant heap.mem == old(heap.mem)
      {
        var s := Slot(tree, 0, i);
        if s in heap.nodes {
          heap.nodes := heap.nodes[s := heap.nodes[s].(ps64 := false)];
          r := r[0 := r[0] + [PageEntryInfo(s, EntryAddress(heap.nodes, s), EntryOf(cfg, heap.nodes[s]))]];
        }
        i := i + 1;
      }
    }

    static method RemoveNode(heap: TableHeap, tree: nat, table: PerLevel<PageEntryInfo>, s: Slot) returns (r: PerLevel<PageEntryInfo>)
      requires s in heap.nodes && s.level < 5
      modifies heap
      ensures Freeing(tree, heap.nodes, heap.mem, r) == Delete(Freeing(tree, old(heap.nodes), old(heap.mem), table), s)
    {
      var n := heap.nodes[s];
      r := table[s.level := table[s.level] + [PageEntryInfo(s, EntryAddress(heap.nodes, s), Cleared)]];
      heap.nodes := heap.nodes - {s};
      if n.reserved > 0 { heap.mem := FreeFrame(heap.mem, n.bank, n.phys); }
    }

    static method RemoveIfEmpty(heap: TableHeap, tree: nat, table: PerLevel<PageEntryInfo>, s: Slot) returns (r: PerLevel<PageEntryInfo>)
      requires s.level < 5
      modifies heap
      ensures Freeing(tree, heap.nodes, heap.mem, r) == DeleteIfEmpty(Freeing(tree, old(heap.nodes), old(heap.mem), table), s)
    {
      hide Empty, Delete;
      r := table;
      if s in heap.nodes && Empty(heap.nodes, s) { r := RemoveNode(heap, tree, table, s); }
    }
  }

  lemma DeleteIfEmptyWellFormed(cfg: Config, f: Freeing, s: Slot)
    requires WellFormed(cfg, f.nodes) && s.level < 5
    ensures var b := DeleteIfEmpty(f, s).nodes; WellFormed(cfg, b) && forall x :: x in f.nodes && x != s ==> x in b
  {
    hide WellFormed, Empty, Delete;
    if s in f.nodes && Empty(f.nodes, s) {
      DeleteNodes(f, s);
      DeleteKeepsWellFormed(cfg, f.nodes, s);
    }
  }

  lemma DeleteLeafWellFormed(cfg: Config, nodes: Forest, s: Slot)
    requires ValidConfig(cfg) && WellFormed(cfg, nodes) && s in nodes && s.level < 2 && !IsTable(nodes[s].kind)
    ensures WellFormed(cfg, nodes - {s})
  {
    hide WellFormed, Empty;
    LeafIsEmpty(cfg, nodes, s);
    DeleteKeepsWellFormed(cfg, nodes, s);
  }

  lemma FreeLeafWellFormed(cfg: Config, f: Freeing, s: Slot, va: nat, size: nat, start: nat, end: nat)
    requires ValidConfig(cfg) && WellFormed(cfg, f.nodes) && s.level == 0 && s.tree == f.tree
    ensures var b := FreeLeaf(cfg, f, s, va, size, start, end).nodes; WellFormed(cfg, b) && forall x :: x in f.nodes && x != s ==> x in b
  {
    hide WellFormed, Delete, Mend, Placed, Ps64Freeing.Mended;
    if s in f.nodes {
      Ps64Freeing.FreeLeafNodes(cfg, f, s, va, size, start, end);
      var b := FreeLeaf(cfg, f, s, va, size, start, end).nodes;
      LeafUnderTable(cfg, f.nodes, s);
      DeleteLeafWellFormed(cfg, f.nodes, s);
      assert b.Keys == (f.nodes - {s}).Keys;
      EvolvesKeepsPlaced(cfg, f.nodes - {s}, b, None);
      AllPlaced(cfg, b);
    }
  }

  lemma FreePageStaysWellFormed(cfg: Config, f: Freeing, va: nat, size: nat, start: nat, end: nat)
    requires ValidConfig(cfg) && WellFormed(cfg, f.nodes) && TableSlot(f.tree, 1, va) in f.nodes
    ensures var b := FreePage(cfg, f, va, size, start, end).nodes;
      WellFormed(cfg, b) && forall x :: x in f.nodes && x.level >= 3 ==> x in b
  {
    hide WellFormed, Empty, Delete, FreeLeaf, LeafSlot, DeleteIfEmpty;
    var p := TableSlot(f.tree, 1, va);
    if f.nodes[p].kind.Page2MB? {
      DeleteNodes(f, p);
      DeleteLeafWellFormed(cfg, f.nodes, p);
      DeleteIfEmptyWellFormed(cfg, Delete(f, p), TableSlot(f.tree, 2, va));
    } else {
      var s := LeafSlot(cfg, f.tree, f.nodes[p].kind, va);
      LeafSlotLevel(cfg, f.tree, f.nodes[p].kind, va);
      FreeLeafWellFormed(cfg, f, s, va, size, start, end);
      DeleteIfEmptyWellFormed(cfg, FreeLeaf(cfg, f, s, va, size, start, end), p);
    }
  }

  /** Mending looks at entries only, so it does not matter when the page's frame goes back. */
  lemma MendIgnoresMemory(cfg: Config, f: Freeing, mem: Physical, s: Slot, va: nat, size: nat, start: nat, end: nat)
    ensures Mend(cfg, f.(mem := mem), s, va, size, start, end) == Mend(cfg, f, s, va, size, start, end).(mem := mem)
  {
    hide UnmarkRange;
    UnmarkIgnoresMemory(cfg, f, mem, GroupBase(s), s.num);
    var f1 := if va == start && start % PAGE_64KB != 0 then UnmarkRange(cfg, f, GroupBase(s), s.num) else f;
    UnmarkIgnoresMemory(cfg, f1, mem, s.num + 1, GroupBase(s) + 16);
  }

  lemma {:induction false} UnmarkIgnoresMemory(cfg: Config, f: Freeing, mem: Physical, low: nat, high: nat)
    ensures UnmarkRange(cfg, f.(mem := mem), low, high) == UnmarkRange(cfg, f, low, high).(mem := mem)
    decreases high - low
  {
    hide EntryOf, EntryAddress;
    if low < high {
      UnmarkIgnoresMemory(cfg, Unmark(cfg, f, Slot(f.tree, 0, low)), mem, low + 1, high);
    }
  }

  lemma InsideTree(cfg: Config, va: nat, size: nat, step: nat)
    requires FitsIn(cfg, va, size) && 0 < step <= size
    ensures InRange(cfg, va) && FitsIn(cfg, va + step, size - step)
  {
  }

  /** A missing table leaves nothing below it. */
  lemma {:induction false} NothingBelow(cfg: Config, nodes: Forest, tree: nat, va: nat, level: nat)
    requires ValidConfig(cfg) && WellFormed(cfg, nodes) && 1 <= level < cfg.levels && TableSlot(tree, level, va) !in nodes
    ensures TableSlot(tree, 1, va) !in nodes
    decreases level
  {
    hide WellFormed, Span;
    if level > 1 {
      var s := TableSlot(tree, level - 1, va);
      ChildIsTableSlot(cfg, tree, level - 1, va);
      if s in nodes { AboveIsThere(cfg, nodes, s); }
      NothingBelow(cfg, nodes, tree, va, level - 1);
    }
  }

  lemma AboveIsThere(cfg: Config, nodes: Forest, s: Slot)
    requires WellFormed(cfg, nodes) && s.level < cfg.levels && s in nodes
    ensures Parent(s) in nodes
  {
    assert Placed(cfg, nodes, s);
  }

  lemma FlagsStay(st: Stream, local: bool, table: PerLevel<PageEntryInfo>)
    ensures Committed(WriteLevels(st, local, table, 5)) == Committed(st)
  {
    hide StoreLevels;
    WriteLevelsStores(st, local, table, 5);
  }
}
