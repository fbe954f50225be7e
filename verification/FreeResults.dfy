/** What freeing a range comes to: exact on mapped ranges, and what a sink that was not listening is left with. */
module FreeResults {
  import opened Wrappers
  import opened Arithmetic
  import opened PageTables
  import opened FrameAllocator
  import opened PhysicalMemory
  import opened WalkModel
  import opened TreeFacts
  import opened WalkLookup
  import opened WalkStream
  import opened FrameOwnership
  import opened Streams
  import opened StreamCoherence
  import opened FreeModel
  import opened FreeFacts
  import opened FreeExact
  import opened Ps64Groups
  import opened Ps64Freeing
  import System

  /** The PTE table of some page of the range. */
  ghost predicate PassedThrough(tree: nat, va: nat, size: nat, p: Slot) {
    exists x :: va <= x < va + size && p == TableSlot(tree, 1, x)
  }

  /** Freeing a mapped range runs to its end, leaves no address of it mapped and every address apart from it as it was, and
      gives back exactly the blocks in use at the addresses of the deleted nodes. It keeps a PTE it passed through exactly
      when it has an entry left, and removes a PDE exactly when it empties it and the last page it frees under it is a 2MB
      page: a PDE emptied by removing PTEs stays. */
  lemma MappedFreeIsExact(cfg: Config, g: Layout, nodes: Forest, mem: Physical, tree: nat, va: nat, size: nat)
    requires ValidConfig(cfg) && WellFormed(cfg, nodes) && ValidPhysical(mem, g) && Mapped(cfg, nodes, tree, va, size)
    ensures var (f, done) := FreeMemory(cfg, nodes, mem, tree, va, size);
      && done
      && (forall x :: va <= x < va + size ==> LeafOf(cfg, f.nodes, tree, x) == None)
      && (forall t, x :: Apart(cfg, nodes, tree, va, size, t, x) ==> Translate(cfg, f.nodes, t, x) == Translate(cfg, nodes, t, x))
      && ReturnsFrames(nodes, mem, f.nodes, f.mem)
      && (forall p :: PassedThrough(tree, va, size, p) ==> (p in f.nodes <==> !Empty(f.nodes, p)))
      && (forall x :: va <= x < va + size && LastUnderPde(x, va + size) ==>
            && TableSlot(tree, 1, x) in nodes
            && (TableSlot(tree, 2, x) !in f.nodes <==> Empty(f.nodes, TableSlot(tree, 2, x)) && nodes[TableSlot(tree, 1, x)].kind.Page2MB?))
  {
    hide FreeFrom, FreeInv, WellFormed, ValidPhysical, LeafOf, LeafSize, Apart, Empty, Translate, ReturnsFrames, Mapped, PassedThrough, Shrunk, QueueOk,
         LastUnderPde, Span;
    var f0 := Freeing(tree, nodes, mem, [[], [], [], [], []]);
    StartFree(cfg, g, f0);
    MappedFreeCompletes(cfg, g, nodes, mem, f0, va, size, va, va + size);
    FreeKeepsInv(cfg, g, nodes, mem, f0, va, size, va, va + size);
    var f := FreeFrom(cfg, f0, va, size, va, va + size).0;
    InvParts(cfg, g, nodes, mem, f);
    forall x | va <= x < va + size ensures LeafOf(cfg, f.nodes, tree, x) == None {
      FreeClearsRange(cfg, g, nodes, mem, f0, va, size, va, va + size, x);
    }
    forall t, x | Apart(cfg, nodes, tree, va, size, t, x) ensures Translate(cfg, f.nodes, t, x) == Translate(cfg, nodes, t, x) {
      FreeKeepsOutside(cfg, g, nodes, mem, f0, va, size, va, va + size, t, x);
    }
    forall p | PassedThrough(tree, va, size, p) ensures p in f.nodes <==> !Empty(f.nodes, p) {
      PassedThroughTable(cfg, g, f0, va, size, p);
    }
    forall x | va <= x < va + size && LastUnderPde(x, va + size)
      ensures TableSlot(tree, 1, x) in nodes
      ensures TableSlot(tree, 2, x) !in f.nodes <==> Empty(f.nodes, TableSlot(tree, 2, x)) && nodes[TableSlot(tree, 1, x)].kind.Page2MB? {
      PdeGoesExactly(cfg, g, nodes, mem, f0, va, size, va, va + size, x);
    }
  }

  lemma PassedThroughTable(cfg: Config, g: Layout, f0: Freeing, va: nat, size: nat, p: Slot)
    requires FreeInv(cfg, g, f0.nodes, f0.mem, f0) && FreeFrom(cfg, f0, va, size, va, va + size).1 && PassedThrough(f0.tree, va, size, p)
    ensures var r := FreeFrom(cfg, f0, va, size, va, va + size).0.nodes; p in r <==> !Empty(r, p)
  {
    hide FreeFrom, FreeInv, WellFormed, ValidPhysical, Empty, ReturnsFrames, Span;
    var f := FreeFrom(cfg, f0, va, size, va, va + size).0;
    FreeKeepsInv(cfg, g, f0.nodes, f0.mem, f0, va, size, va, va + size);
    InvParts(cfg, g, f0.nodes, f0.mem, f);
    if p in f.nodes { FreeLeavesNoEmptyPte(cfg, g, f0.nodes, f0.mem, f0, va, size, va, va + size, p); }
    else { NothingHangsOffAbsent(cfg, f.nodes, p); }
  }

  lemma NothingHangsOffAbsent(cfg: Config, nodes: Forest, p: Slot)
    requires WellFormed(cfg, nodes) && ValidConfig(cfg) && p !in nodes && p.level == 1
    ensures Empty(nodes, p)
  {
    forall x | x in nodes ensures Parent(x) != p { assert Placed(cfg, nodes, x); }
  }

  // ---- frees that a sink misses ----

  /** The entry lies in a 64KB block that the range reaches into. */
  predicate Reached(tree: nat, start: nat, end: nat, x: Slot) {
    x.tree == tree && x.level == 0 && end > 0 && start / PAGE_64KB <= x.num / 16 <= (end - 1) / PAGE_64KB
  }

  /** A marked entry outside the range in a block that the range reaches into. */
  predicate Cut(nodes: Forest, tree: nat, va: nat, size: nat, x: Slot) {
    && x in nodes && nodes[x].ps64 && size > 0 && Reached(tree, va, va + size, x)
    && !(va / PAGE_4KB <= x.num <= (va + size - 1) / PAGE_4KB)
  }

  /** Survivors are as they were, unless they are in reach. */
  ghost predicate ReachedOnly(a: Forest, b: Forest, tree: nat, start: nat, end: nat) {
    forall x :: x in b ==> x in a && (b[x] == a[x] || Reached(tree, start, end, x))
  }

  lemma MendReaches(s: Slot, x: Slot, tree: nat, va: nat, size: nat, start: nat, end: nat)
    requires s == Slot(tree, 0, va / PAGE_4KB) && Mended(s, x, va, size, start, end) && size > 0 && end == va + size && start <= va
    ensures Reached(tree, start, end, x)
  {
    assert va / PAGE_4KB / 16 == va / PAGE_64KB;
  }

  lemma PageReaches(cfg: Config, g: Layout, n0: Forest, mem0: Physical, f: Freeing, va: nat, size: nat, start: nat, end: nat)
    requires FreeInv(cfg, g, n0, mem0, f) && size > 0 && end == va + size && start <= va && TableSlot(f.tree, 1, va) in f.nodes
    requires forall x: Slot :: x in f.nodes && x.level == 0 && f.nodes[x].ps64 ==> Under4KB(f.nodes, x.tree, x)
    ensures ReachedOnly(f.nodes, FreePage(cfg, f, va, size, start, end).nodes, f.tree, start, end)
  {
    hide FreeInv, FreeLeaf, Delete, Empty, LeafSlot, FreePage, DeleteIfEmpty, Mended, Reached;
    var p := TableSlot(f.tree, 1, va);
    if f.nodes[p].kind.Pte4KB? {
      var s := Slot(f.tree, 0, va / PAGE_4KB);
      SmallLeafSlot(cfg, f.tree, va);
      SmallPageIs(cfg, f, va, size, start, end);
      FreeLeafNodes(cfg, f, s, va, size, start, end);
      var f1 := FreeLeaf(cfg, f, s, va, size, start, end);
      DeleteIfEmptyNodes(f1, p);
      forall x | Mended(s, x, va, size, start, end) ensures Reached(f.tree, start, end, x) {
        MendReaches(s, x, f.tree, va, size, start, end);
      }
    } else {
      LargePageNodes(cfg, f, va, size, start, end);
    }
  }

  /** Marks survive only under the 4KB tables they were under. */
  lemma MarksStayUnder4KB(cfg: Config, n0: Forest, nodes: Forest)
    requires ValidConfig(cfg) && WellFormed(cfg, nodes) && Shrunk(n0, nodes) && GroupsIntact(cfg, n0)
    requires forall x :: x in nodes && nodes[x].ps64 ==> n0[x].ps64
    ensures forall x: Slot :: x in nodes && x.level == 0 && nodes[x].ps64 ==> Under4KB(nodes, x.tree, x)
  {
    hide WellFormed, GroupOk;
    forall x: Slot | x in nodes && x.level == 0 && nodes[x].ps64 ensures Under4KB(nodes, x.tree, x) {
      assert MarkKept(cfg, n0, x);
      ParentKept(cfg, nodes, x);
    }
  }

  /** No free adds a mark. */
  ghost predicate NoNewMarks(a: Forest, b: Forest) {
    forall x :: x in b ==> x in a && (b[x].ps64 ==> a[x].ps64)
  }

  lemma PageAddsNoMark(cfg: Config, g: Layout, n0: Forest, mem0: Physical, f: Freeing, va: nat, size: nat, start: nat, end: nat)
    requires FreeInv(cfg, g, n0, mem0, f) && TableSlot(f.tree, 1, va) in f.nodes
    requires forall x: Slot :: x in f.nodes && x.level == 0 && f.nodes[x].ps64 ==> Under4KB(f.nodes, x.tree, x)
    ensures NoNewMarks(f.nodes, FreePage(cfg, f, va, size, start, end).nodes)
  {
    hide FreeInv, FreeLeaf, Delete, Empty, LeafSlot, FreePage, DeleteIfEmpty, Mended;
    var p := TableSlot(f.tree, 1, va);
    if f.nodes[p].kind.Pte4KB? {
      var s := Slot(f.tree, 0, va / PAGE_4KB);
      SmallLeafSlot(cfg, f.tree, va);
      SmallPageIs(cfg, f, va, size, start, end);
      FreeLeafNodes(cfg, f, s, va, size, start, end);
      DeleteIfEmptyNodes(FreeLeaf(cfg, f, s, va, size, start, end), p);
    } else {
      LargePageNodes(cfg, f, va, size, start, end);
    }
  }

  lemma {:induction false} FreeReaches(cfg: Config, g: Layout, n0: Forest, mem0: Physical, f: Freeing, va: nat, size: nat, start: nat, end: nat)
    requires FreeInv(cfg, g, n0, mem0, f) && end == va + size && start <= va && GroupsIntact(cfg, n0)
    requires ReachedOnly(n0, f.nodes, f.tree, start, end) && NoNewMarks(n0, f.nodes)
    ensures var r := FreeFrom(cfg, f, va, size, start, end).0.nodes;
      ReachedOnly(n0, r, f.tree, start, end) && NoNewMarks(n0, r)
    decreases size
  {
    hide FreePage, FreeFrom, FreeInv, PageGone, Shrunk, PageStep, WellFormed, ValidPhysical, ReturnsFrames, QueueOk, GroupsIntact, Reached;
    if size == 0 {
      FreeNothing(cfg, f, va, start, end);
    } else {
      FreeTurn(cfg, f, va, size, start, end);
      if PageSizeOf(f.nodes, f.tree, va).Some? {
        InvParts(cfg, g, n0, mem0, f);
        MarksStayUnder4KB(cfg, n0, f.nodes);
        var step := PageStep(PageSizeOf(f.nodes, f.tree, va).value, va, size);
        FreePageKeepsInv(cfg, g, n0, mem0, f, va, size, start, end);
        PageReaches(cfg, g, n0, mem0, f, va, size, start, end);
        PageAddsNoMark(cfg, g, n0, mem0, f, va, size, start, end);
        FreeReaches(cfg, g, n0, mem0, FreePage(cfg, f, va, size, start, end), va + step, size - step, start, end);
      }
    }
  }

  /** A surviving entry of an address in the range would be its leaf. */
  lemma InRangeIsGone(cfg: Config, nodes: Forest, tree: nat, va: nat, size: nat, x: Slot)
    requires WellFormed(cfg, nodes) && size > 0 && va / PAGE_4KB <= x.num <= (va + size - 1) / PAGE_4KB && x in nodes && Under4KB(nodes, tree, x)
    ensures exists y :: va <= y < va + size && LeafOf(cfg, nodes, tree, y) == Some(x)
  {
    hide WellFormed, LeafSlot;
    var y := Max(va, x.num * PAGE_4KB);
    assert y / PAGE_4KB == x.num && va <= y < va + size;
    SmallLeafSlot(cfg, tree, y);
    LeafSlotParent(cfg, tree, Pte4KB, y);
    assert LeafOf(cfg, nodes, tree, y) == Some(x);
  }

  /** A marked entry outside the range is the leaf of its own page, and no page of the range is. */
  lemma CutSurvives(cfg: Config, g: Layout, nodes: Forest, mem: Physical, tree: nat, va: nat, size: nat, x: Slot)
    requires ValidConfig(cfg) && WellFormed(cfg, nodes) && ValidPhysical(mem, g) && GroupsIntact(cfg, nodes) && Cut(nodes, tree, va, size, x)
    ensures x in FreeMemory(cfg, nodes, mem, tree, va, size).0.nodes
  {
    hide FreeFrom, FreeInv, WellFormed, ValidPhysical, GroupOk, LeafSlot, Reached;
    var f0 := Freeing(tree, nodes, mem, [[], [], [], [], []]);
    StartFree(cfg, g, f0);
    assert x.tree == tree && x.level == 0 by { assert Reached(tree, va, va + size, x); CutInTree(nodes, tree, va, size, x); }
    assert MarkKept(cfg, nodes, x);
    var y := x.num * PAGE_4KB;
    SmallLeafSlot(cfg, tree, y);
    LeafSlotParent(cfg, tree, Pte4KB, y);
    assert LeafOf(cfg, nodes, tree, y) == Some(x);
    forall z | va <= z < va + size ensures LeafOf(cfg, nodes, tree, z) != Some(x) { OtherPageOtherLeaf(cfg, nodes, tree, z, x); }
    assert Apart(cfg, nodes, tree, va, size, tree, y);
    FreeKeepsOutside(cfg, g, nodes, mem, f0, va, size, va, va + size, tree, y);
  }

  lemma CutInTree(nodes: Forest, tree: nat, va: nat, size: nat, x: Slot)
    requires Cut(nodes, tree, va, size, x)
    ensures x.tree == tree && x.level == 0
  {
  }

  lemma OtherPageOtherLeaf(cfg: Config, nodes: Forest, tree: nat, z: nat, x: Slot)
    requires WellFormed(cfg, nodes) && Under4KB(nodes, tree, x) && z / PAGE_4KB != x.num
    ensures LeafOf(cfg, nodes, tree, z) != Some(x)
  {
    hide WellFormed, LeafSlot;
    var p := TableSlot(tree, 1, z);
    if LeafOf(cfg, nodes, tree, z) == Some(x) {
      PdeKind(cfg, nodes, p);
      LeafSlotParent(cfg, tree, nodes[p].kind, z);
      SmallLeafSlot(cfg, tree, z);
      assert false;
    }
  }

  /** A sink that takes nothing of a free stays coherent if and only if every marked entry that the range cuts off from
      the rest of its group was waiting to be written. In particular it does when the range ends on 64KB boundaries. */
  lemma MissedFreeExactly(cfg: Config, g: Layout, nodes: Forest, mem: Physical, tree: nat, va: nat, size: nat, sink: Sink)
    requires ValidConfig(cfg) && WellFormed(cfg, nodes) && ValidPhysical(mem, g) && GroupsIntact(cfg, nodes) && Coherent(cfg, nodes, sink)
    requires FreeMemory(cfg, nodes, mem, tree, va, size).1
    ensures Coherent(cfg, FreeMemory(cfg, nodes, mem, tree, va, size).0.nodes, sink)
      <==> forall x :: Cut(nodes, tree, va, size, x) ==> nodes[x].pending
    ensures va % PAGE_64KB == 0 && (va + size) % PAGE_64KB == 0 ==>
      Coherent(cfg, FreeMemory(cfg, nodes, mem, tree, va, size).0.nodes, sink)
  {
    hide FreeMemory, WellFormed, ValidPhysical, GroupsIntact, Cut, LocationOf, EntryOf, Shrunk;
    var r := FreeMemory(cfg, nodes, mem, tree, va, size).0.nodes;
    MissedFree(cfg, g, nodes, mem, tree, va, size);
    forall s | s in r && s.level < cfg.levels ensures LocationOf(cfg, r, s) == LocationOf(cfg, nodes, s) {
      System.RootsAlwaysPresent(cfg, r);
      System.SurvivorLocation(cfg, nodes, Freeing(tree, r, mem, [[], [], [], [], []]), s);
    }
    forall x | Cut(nodes, tree, va, size, x) ensures x in r && x.level < cfg.levels && EntryOf(cfg, r[x]) != EntryOf(cfg, nodes[x]) {
      CutInTree(nodes, tree, va, size, x);
      CutLeaf(cfg, nodes, tree, va, size, x);
      UnmarkedDiffers(cfg, nodes[x], r[x]);
    }
    if Coherent(cfg, r, sink) {
      forall x | Cut(nodes, tree, va, size, x) ensures nodes[x].pending { assert r[x].pending == nodes[x].pending; }
    }
    if va % PAGE_64KB == 0 && (va + size) % PAGE_64KB == 0 {
      forall x ensures !Cut(nodes, tree, va, size, x) { WholeBlocksCutNothing(nodes, tree, va, size, x); }
    }
  }

  // ---- a free that is missed and matters ----

  /** One marked group of sixteen pages, all streamed. */
  function GroupForest(): Forest {
    (map i: nat | i < 16 :: Slot(0, 0, i) := Node(Page, 0x1_0000 + i * PAGE_4KB, 0, NO_ATTRIBUTES, 0, true, false))
    + map[Slot(0, 5, 0) := Node(Pml5, 0x1000, 0, NO_ATTRIBUTES, 0, false, false),
          Slot(0, 4, 0) := Node(Pml4, 0x2000, 0, NO_ATTRIBUTES, 0, false, false),
          Slot(0, 3, 0) := Node(Pdp, 0x3000, 0, NO_ATTRIBUTES, 0, false, false),
          Slot(0, 2, 0) := Node(Pde, 0x4000, 0, NO_ATTRIBUTES, 0, false, false),
          Slot(0, 1, 0) := Node(Pte4KB, 0x5000, 0, NO_ATTRIBUTES, 0, false, false)]
  }

  /** The sink that was streamed all of it. */
  function GroupSink(extra: nat): Sink {
    GroupPages(extra) + GroupTables()
  }

  function GroupPages(extra: nat): Sink {
    map i: nat | i < 16 :: Location(false, 0x5000 + i * 8) := Entry(0x1_0000 + i * PAGE_4KB, false, true, false, false, extra)
  }

  function GroupTables(): Sink {
    map[Location(false, 0x1000) := Entry(0x2000, false, false, false, false, 0),
        Location(false, 0x2000) := Entry(0x3000, false, false, false, false, 0),
        Location(false, 0x3000) := Entry(0x4000, false, false, false, false, 0),
        Location(false, 0x4000) := Entry(0x5000, false, false, false, false, 0)]
  }

  lemma GroupNodes(s: Slot)
    ensures s in GroupForest() <==> s.tree == 0 && (if s.level == 0 then s.num < 16 else s.level <= 5 && s.num == 0)
    ensures s in GroupForest() && s.level == 0 ==> GroupForest()[s] == Node(Page, 0x1_0000 + s.num * PAGE_4KB, 0, NO_ATTRIBUTES, 0, true, false)
    ensures s in GroupForest() && s.level > 0 ==>
      GroupForest()[s] == Node(if s.level == 1 then Pte4KB else TableKind(s.level), (6 - s.level) * 0x1000, 0, NO_ATTRIBUTES, 0, false, false)
  {
    if s.level == 0 { assert s in GroupForest() ==> s == Slot(0, 0, s.num); }
    else { assert s.level == 1 || s.level == 2 || s.level == 3 || s.level == 4 || s.level == 5 || s !in GroupForest(); }
  }

  lemma GroupIsWellFormed(cfg: Config)
    requires cfg.levels == 5
    ensures WellFormed(cfg, GroupForest())
  {
    hide GroupForest;
    forall s | s in GroupForest() ensures Placed(cfg, GroupForest(), s) {
      GroupNodes(s);
      GroupNodes(Parent(s));
    }
  }

  lemma GroupMembers(cfg: Config, s: Slot, i: nat)
    requires s in GroupForest() && s.level == 0 && i < 16
    ensures Member(s, i) == Slot(0, 0, i) && Member(s, i) in GroupForest()
    ensures GroupForest()[Member(s, i)] == Node(Page, 0x1_0000 + i * PAGE_4KB, 0, NO_ATTRIBUTES, 0, true, false)
  {
    hide GroupForest;
    GroupNodes(s);
    GroupNodes(Slot(0, 0, i));
  }

  lemma GroupIsMarked(cfg: Config)
    ensures GroupsIntact(cfg, GroupForest())
  {
    hide GroupForest, Member, GroupBase;
    forall s: Slot | s in GroupForest() && s.level == 0 ensures Under4KB(GroupForest(), s.tree, s) && GroupOk(cfg, GroupForest(), s) {
      GroupNodes(s);
      GroupNodes(Slot(0, 1, 0));
      GroupMembers(cfg, s, 0);
      forall i: nat | i < 16
        ensures Member(s, i) in GroupForest() && GroupForest()[Member(s, i)] == Node(Page, 0x1_0000 + i * PAGE_4KB, 0, NO_ATTRIBUTES, 0, true, false) {
        GroupMembers(cfg, s, i);
      }
    }
  }

  lemma GroupLocation(cfg: Config, s: Slot)
    requires cfg.levels == 5 && s in GroupForest() && s.level < 5
    ensures LocationOf(cfg, GroupForest(), s) == Location(false, (5 - s.level) * 0x1000 + s.num * 8)
    ensures EntryOf(cfg, GroupForest()[s]) ==
      if s.level == 0 then Entry(0x1_0000 + s.num * PAGE_4KB, false, true, false, false, cfg.extraBits(NO_ATTRIBUTES))
      else Entry((6 - s.level) * 0x1000, false, false, false, false, 0)
  {
    hide GroupForest;
    GroupNodes(s);
    GroupNodes(Parent(s));
    GroupNodes(Root(cfg, 0));
  }

  lemma GroupPageHolds(extra: nat, i: nat)
    requires i < 16
    ensures var at := Location(false, 0x5000 + i * 8);
      at in GroupPages(extra) && at !in GroupTables() && GroupPages(extra)[at] == Entry(0x1_0000 + i * PAGE_4KB, false, true, false, false, extra)
  {
  }

  lemma GroupTableHolds(level: nat)
    requires 0 < level < 5
    ensures var at := Location(false, (5 - level) * 0x1000);
      at in GroupTables() && GroupTables()[at] == Entry((6 - level) * 0x1000, false, false, false, false, 0)
  {
  }

  lemma GroupSinkHolds(extra: nat, s: Slot)
    requires s in GroupForest() && s.level < 5
    ensures var at := Location(false, (5 - s.level) * 0x1000 + s.num * 8);
      at in GroupSink(extra) && GroupSink(extra)[at] ==
        if s.level == 0 then Entry(0x1_0000 + s.num * PAGE_4KB, false, true, false, false, extra)
        else Entry((6 - s.level) * 0x1000, false, false, false, false, 0)
  {
    hide GroupForest, GroupPages, GroupTables;
    GroupNodes(s);
    if s.level == 0 { GroupPageHolds(extra, s.num); } else { GroupTableHolds(s.level); }
  }

  lemma GroupIsStreamed(cfg: Config)
    requires cfg.levels == 5
    ensures Coherent(cfg, GroupForest(), GroupSink(cfg.extraBits(NO_ATTRIBUTES)))
  {
    hide GroupForest, GroupSink, LocationOf, EntryOf;
    var nodes, sink := GroupForest(), GroupSink(cfg.extraBits(NO_ATTRIBUTES));
    forall s | s in nodes && s.level < 5 ensures LocationOf(cfg, nodes, s) in sink && sink[LocationOf(cfg, nodes, s)] == EntryOf(cfg, nodes[s]) {
      GroupLocation(cfg, s);
      GroupSinkHolds(cfg.extraBits(NO_ATTRIBUTES), s);
    }
  }

  /** A sink that was streamed a whole 64KB group and misses the free of its first page is left with fifteen entries marked PS64 that
      the tree no longer marks. */
  lemma MissedFreeCanMatter(extraBits: Attributes -> nat, count: nat, g: Layout)
    ensures var cfg := Config(5, false, true, extraBits); var mem := Fresh(count, g.bankSize, g.localMemory);
      var sink := GroupSink(extraBits(NO_ATTRIBUTES)); var (f, done) := FreeMemory(cfg, GroupForest(), mem, 0, 0, PAGE_4KB);
      done && Coherent(cfg, GroupForest(), sink) && !Coherent(cfg, f.nodes, sink)
  {
    hide FreeMemory, WellFormed, GroupsIntact, ValidPhysical, LeafSlot, Coherent, GroupSink, GroupForest;
    var cfg := Config(5, false, true, extraBits);
    var mem := Fresh(count, g.bankSize, g.localMemory);
    GroupIsWellFormed(cfg);
    GroupIsMarked(cfg);
    GroupIsStreamed(cfg);
    FreshIsValid(count, g.bankSize, g.localMemory);
    FirstPageMapped(cfg);
    MappedFreeIsExact(cfg, g, GroupForest(), mem, 0, 0, PAGE_4KB);
    MissedFreeExactly(cfg, g, GroupForest(), mem, 0, 0, PAGE_4KB, GroupSink(extraBits(NO_ATTRIBUTES)));
    SecondPageCut();
  }

  lemma FirstPageMapped(cfg: Config)
    ensures Mapped(cfg, GroupForest(), 0, 0, PAGE_4KB)
  {
    hide LeafSlot;
    forall x | 0 <= x < PAGE_4KB ensures LeafOf(cfg, GroupForest(), 0, x).Some? {
      assert TableSlot(0, 1, x) == Slot(0, 1, 0);
      SmallLeafSlot(cfg, 0, x);
    }
  }

  lemma SecondPageCut()
    ensures Cut(GroupForest(), 0, 0, PAGE_4KB, Slot(0, 0, 1)) && !GroupForest()[Slot(0, 0, 1)].pending
  {
  }

  lemma UnmarkedDiffers(cfg: Config, m: Node, n: Node)
    requires m.kind.Page? && n.kind.Page? && m.ps64 && !n.ps64
    ensures EntryOf(cfg, m) != EntryOf(cfg, n)
  {
  }

  lemma CutLeaf(cfg: Config, nodes: Forest, tree: nat, va: nat, size: nat, x: Slot)
    requires WellFormed(cfg, nodes) && Cut(nodes, tree, va, size, x)
    ensures nodes[x].kind.Page? && nodes[x].ps64
  {
    assert Placed(cfg, nodes, x);
  }

  lemma WholeBlocksCutNothing(nodes: Forest, tree: nat, va: nat, size: nat, x: Slot)
    requires va % PAGE_64KB == 0 && (va + size) % PAGE_64KB == 0
    ensures !Cut(nodes, tree, va, size, x)
  {
    if size > 0 && Reached(tree, va, va + size, x) {
      assert va / PAGE_4KB == va / PAGE_64KB * 16;
      assert (va + size - 1) / PAGE_4KB == (va + size - 1) / PAGE_64KB * 16 + 15;
    }
  }

  /** What a completed free does to the survivors: those it cuts off lose their mark, all others are unchanged. */
  lemma MissedFree(cfg: Config, g: Layout, nodes: Forest, mem: Physical, tree: nat, va: nat, size: nat)
    requires ValidConfig(cfg) && WellFormed(cfg, nodes) && ValidPhysical(mem, g) && GroupsIntact(cfg, nodes)
    requires FreeMemory(cfg, nodes, mem, tree, va, size).1
    ensures var r := FreeMemory(cfg, nodes, mem, tree, va, size).0.nodes;
      && WellFormed(cfg, r) && Shrunk(nodes, r)
      && (forall x :: Cut(nodes, tree, va, size, x) ==> x in r)
      && (forall x :: x in r ==> x in nodes && r[x] == if Cut(nodes, tree, va, size, x) then nodes[x].(ps64 := false) else nodes[x])
  {
    hide FreeFrom, FreeInv, WellFormed, ValidPhysical, GroupsIntact, Cut, Reached, QueueOk, ReturnsFrames, Span;
    var f0 := Freeing(tree, nodes, mem, [[], [], [], [], []]);
    StartFree(cfg, g, f0);
    var end := va + size;
    FreeKeepsInv(cfg, g, nodes, mem, f0, va, size, va, end);
    var f := FreeFrom(cfg, f0, va, size, va, end).0;
    InvParts(cfg, g, nodes, mem, f);
    FreeReaches(cfg, g, nodes, mem, f0, va, size, va, end);
    FreeKeepsGroups(cfg, g, nodes, mem, tree, va, size);
    MarksStayUnder4KB(cfg, nodes, f.nodes);
    forall x | Cut(nodes, tree, va, size, x) ensures x in f.nodes { CutSurvives(cfg, g, nodes, mem, tree, va, size, x); }
    forall x | x in f.nodes
      ensures x in nodes && f.nodes[x] == if Cut(nodes, tree, va, size, x) then nodes[x].(ps64 := false) else nodes[x] {
      if Cut(nodes, tree, va, size, x) {
        if f.nodes[x].ps64 { CutIsUnmarked(cfg, g, nodes, mem, f0, f.nodes, va, size, x); }
      } else if f.nodes[x] != nodes[x] {
        OnlyCutChanges(cfg, g, nodes, mem, f0, f.nodes, va, size, x);
      }
    }
  }

  /** A group that keeps its mark keeps all sixteen entries, and one of them was in the range. */
  lemma CutIsUnmarked(cfg: Config, g: Layout, nodes: Forest, mem: Physical, f0: Freeing, r: Forest, va: nat, size: nat, x: Slot)
    requires FreeInv(cfg, g, nodes, mem, f0) && FreeFrom(cfg, f0, va, size, va, va + size).1
    requires r == FreeFrom(cfg, f0, va, size, va, va + size).0.nodes && WellFormed(cfg, r) && GroupsIntact(cfg, r)
    requires forall x: Slot :: x in r && x.level == 0 && r[x].ps64 ==> Under4KB(r, x.tree, x)
    requires Cut(nodes, f0.tree, va, size, x) && x in r
    ensures !r[x].ps64
  {
    hide FreeFrom, FreeInv, WellFormed, GroupOk, Under4KB;
    if r[x].ps64 {
      var n := if x.num < va / PAGE_4KB then va / PAGE_4KB else (va + size - 1) / PAGE_4KB;
      var y := Slot(x.tree, 0, n);
      SameBlock(va, va + size - 1, x.num);
      assert InGroup(x, y);
      assert MarkKept(cfg, r, x);
      WholeGroupHas(cfg, r, x, y);
      LastIsAhead(va, size, va + size);
      RangeHasNoEntry(cfg, g, nodes, mem, f0, r, va, size, y);
    }
  }

  lemma SameBlock(first: nat, last: nat, n: nat)
    requires first <= last && first / PAGE_64KB <= n / 16 <= last / PAGE_64KB
    ensures n < first / PAGE_4KB ==> first / PAGE_4KB / 16 == n / 16
    ensures n > last / PAGE_4KB ==> last / PAGE_4KB / 16 == n / 16
  {
    assert first / PAGE_4KB / 16 == first / PAGE_64KB && last / PAGE_4KB / 16 == last / PAGE_64KB;
  }

  lemma RangeHasNoEntry(cfg: Config, g: Layout, nodes: Forest, mem: Physical, f0: Freeing, r: Forest, va: nat, size: nat, y: Slot)
    requires FreeInv(cfg, g, nodes, mem, f0) && FreeFrom(cfg, f0, va, size, va, va + size).1
    requires r == FreeFrom(cfg, f0, va, size, va, va + size).0.nodes && WellFormed(cfg, r) && size > 0
    requires y.tree == f0.tree && va / PAGE_4KB <= y.num <= (va + size - 1) / PAGE_4KB
    ensures !(y in r && Under4KB(r, y.tree, y))
  {
    hide FreeFrom, FreeInv, WellFormed, LeafOf, Under4KB;
    if y in r && Under4KB(r, y.tree, y) {
      InRangeIsGone(cfg, r, f0.tree, va, size, y);
      var z :| va <= z < va + size && LeafOf(cfg, r, f0.tree, z) == Some(y);
      FreeClearsRange(cfg, g, nodes, mem, f0, va, size, va, va + size, z);
      assert false;
    }
  }

  /** A survivor that changed lost its mark, lies in reach, and outside the range. */
  lemma OnlyCutChanges(cfg: Config, g: Layout, nodes: Forest, mem: Physical, f0: Freeing, r: Forest, va: nat, size: nat, x: Slot)
    requires FreeInv(cfg, g, nodes, mem, f0) && f0.nodes == nodes && FreeFrom(cfg, f0, va, size, va, va + size).1
    requires r == FreeFrom(cfg, f0, va, size, va, va + size).0.nodes && ValidConfig(cfg) && WellFormed(cfg, r) && Shrunk(nodes, r)
    requires GroupsIntact(cfg, nodes) && ReachedOnly(nodes, r, f0.tree, va, va + size) && NoNewMarks(nodes, r)
    requires x in r && r[x] != nodes[x]
    ensures Cut(nodes, f0.tree, va, size, x)
  {
    hide FreeFrom, FreeInv, WellFormed, GroupOk;
    assert nodes[x].ps64 && !r[x].ps64;
    assert Reached(f0.tree, va, va + size, x);
    assert MarkKept(cfg, nodes, x);
    ParentKept(cfg, r, x);
    assert Under4KB(r, x.tree, x);
    if size == 0 {
      FreeNothing(cfg, f0, va, va, va + size);
    } else if va / PAGE_4KB <= x.num <= (va + size - 1) / PAGE_4KB {
      RangeHasNoEntry(cfg, g, nodes, mem, f0, r, va, size, x);
    }
  }
}
