/** Freeing removes the leaves of the pages it overlaps and no others, and leaves no emptied table behind. */
module FreeExact {
  import opened Wrappers
  import opened Arithmetic
  import opened PhysicalMemory
  import opened PageTables
  import opened WalkModel
  import opened TreeFacts
  import opened WalkLookup
  import opened FrameOwnership
  import opened FreeModel
  import opened FreeFacts

  lemma KeptNode(n0: Forest, nodes: Forest, s: Slot)
    requires Shrunk(n0, nodes) && s in nodes
    ensures s in n0 && nodes[s].kind == n0[s].kind && nodes[s].phys == n0[s].phys && nodes[s].bank == n0[s].bank
  {
  }

  /** An address whose leaf survives keeps its whole lookup. */
  lemma SurvivorKeepsLookup(cfg: Config, n0: Forest, nodes: Forest, tree: nat, x: nat)
    requires Shrunk(n0, nodes) && WellFormed(cfg, nodes) && ValidConfig(cfg)
    requires LeafOf(cfg, n0, tree, x) == None || LeafOf(cfg, n0, tree, x).value in nodes
    ensures SameLookup(cfg, n0, nodes, tree, x)
  {
    hide LeafSlot, WellFormed, PteSize, Shrunk, LeafSize;
    var p := TableSlot(tree, 1, x);
    if LeafOf(cfg, n0, tree, x) == None {
      GoneStaysGone(cfg, n0, nodes, tree, x);
    } else {
      var s := LeafOf(cfg, n0, tree, x).value;
      KeptNode(n0, nodes, s);
      if s != p {
        LeafSlotLevel(cfg, tree, n0[p].kind, x);
        ParentPresent(cfg, nodes, s);
        ParentIsPde(cfg, n0, tree, x);
        KeptNode(n0, nodes, p);
        LeafSizeKept(n0, nodes, s);
      } else {
        assert s.level == 1;
        LeafSizeKept(n0, nodes, s);
      }
    }
  }

  lemma ParentIsPde(cfg: Config, nodes: Forest, tree: nat, x: nat)
    requires LeafOf(cfg, nodes, tree, x).Some?
    ensures var s := LeafOf(cfg, nodes, tree, x).value; s == TableSlot(tree, 1, x) || Parent(s) == TableSlot(tree, 1, x)
  {
    hide LeafSlot;
    LeafSlotParent(cfg, tree, nodes[TableSlot(tree, 1, x)].kind, x);
  }

  lemma GoneStaysGone(cfg: Config, n0: Forest, nodes: Forest, tree: nat, x: nat)
    requires Shrunk(n0, nodes) && LeafOf(cfg, n0, tree, x) == None
    ensures LeafOf(cfg, nodes, tree, x) == None
  {
    hide LeafSlot;
    var p := TableSlot(tree, 1, x);
    if p in nodes { KeptNode(n0, nodes, p); }
  }

  /** One page: its addresses lose their leaf, every other address keeps its lookup. */
  lemma PageGoneLookup(cfg: Config, nodes: Forest, nodes': Forest, tree: nat, va: nat, tree': nat, x: nat)
    requires ValidConfig(cfg) && WellFormed(cfg, nodes) && WellFormed(cfg, nodes') && Shrunk(nodes, nodes')
    requires PageGone(cfg, nodes, nodes', tree, va)
    ensures LeafOf(cfg, nodes', tree, va) == None
    ensures LeafOf(cfg, nodes, tree', x) == None || LeafOf(cfg, nodes, tree', x) != LeafOf(cfg, nodes, tree, va) ==>
      SameLookup(cfg, nodes, nodes', tree', x)
  {
    hide LeafSlot, WellFormed, Empty, Shrunk, SameLookup;
    var p := TableSlot(tree, 1, va);
    LeafSlotLevel(cfg, tree, nodes[p].kind, va);
    PdeKind(cfg, nodes, p);
    if p in nodes' { KeptNode(nodes, nodes', p); }
    if LeafOf(cfg, nodes, tree', x) == None {
      SurvivorKeepsLookup(cfg, nodes, nodes', tree', x);
    } else if LeafOf(cfg, nodes, tree', x) != LeafOf(cfg, nodes, tree, va) {
      OtherLeafSurvives(cfg, nodes, nodes', tree, va, tree', x);
      SurvivorKeepsLookup(cfg, nodes, nodes', tree', x);
    }
  }

  lemma OtherLeafSurvives(cfg: Config, nodes: Forest, nodes': Forest, tree: nat, va: nat, tree': nat, x: nat)
    requires ValidConfig(cfg) && WellFormed(cfg, nodes) && PageGone(cfg, nodes, nodes', tree, va)
    requires LeafOf(cfg, nodes, tree', x).Some? && LeafOf(cfg, nodes, tree', x) != LeafOf(cfg, nodes, tree, va)
    ensures LeafOf(cfg, nodes, tree', x).value in nodes'
  {
    hide LeafSlot, WellFormed, Empty;
    var s := LeafOf(cfg, nodes, tree', x).value;
    var q := TableSlot(tree', 1, x);
    PdeKind(cfg, nodes, q);
    PdeKind(cfg, nodes, TableSlot(tree, 1, va));
    LeafSlotLevel(cfg, tree', nodes[q].kind, x);
    LeafSlotLevel(cfg, tree, nodes[TableSlot(tree, 1, va)].kind, va);
    if s.level == 0 { LeafIsNotTable(cfg, nodes, s); }
  }

  lemma LeafIsNotTable(cfg: Config, nodes: Forest, s: Slot)
    requires WellFormed(cfg, nodes) && s in nodes && s.level == 0
    ensures !IsTable(nodes[s].kind)
  {
    assert Placed(cfg, nodes, s);
  }

  lemma LeafNoTable(cfg: Config, nodes: Forest, tree: nat, x: nat, s: Slot)
    requires WellFormed(cfg, nodes) && LeafOf(cfg, nodes, tree, x) == Some(s)
    ensures !IsTable(nodes[s].kind)
  {
    assert Placed(cfg, nodes, s);
  }

  // ---- the whole range ----

  lemma InvParts(cfg: Config, g: Layout, n0: Forest, mem0: Physical, f: Freeing)
    requires FreeInv(cfg, g, n0, mem0, f)
    ensures ValidConfig(cfg) && WellFormed(cfg, f.nodes) && Shrunk(n0, f.nodes) && ValidPhysical(f.mem, g)
    ensures ReturnsFrames(n0, mem0, f.nodes, f.mem) && QueueOk(cfg, n0, f)
  {
  }

  /** One turn of the loop, as an equation. */
  lemma FreeTurn(cfg: Config, f: Freeing, va: nat, size: nat, start: nat, end: nat)
    requires size > 0
    ensures match PageSizeOf(f.nodes, f.tree, va)
      case None => FreeFrom(cfg, f, va, size, start, end) == (f, false)
      case Some(unit) =>
        var step := PageStep(unit, va, size);
        && 0 < step <= size
        && FreeFrom(cfg, f, va, size, start, end) == FreeFrom(cfg, FreePage(cfg, f, va, size, start, end), va + step, size - step, start, end)
  {
    hide FreePage;
  }

  lemma FreeNothing(cfg: Config, f: Freeing, va: nat, start: nat, end: nat)
    ensures FreeFrom(cfg, f, va, 0, start, end) == (f, true)
  {
  }

  /** Every page already behind the cursor has lost its leaf, and the freed tables are gone. */
  lemma {:induction false} FreeKeepsInv(cfg: Config, g: Layout, n0: Forest, mem0: Physical, f: Freeing, va: nat, size: nat, start: nat, end: nat)
    requires FreeInv(cfg, g, n0, mem0, f)
    ensures var r := FreeFrom(cfg, f, va, size, start, end).0;
      FreeInv(cfg, g, n0, mem0, r) && Shrunk(f.nodes, r.nodes) && r.tree == f.tree
    decreases size
  {
    hide FreePage, FreeInv, PageGone;
    if size > 0 && PageSizeOf(f.nodes, f.tree, va).Some? {
      var step := PageStep(PageSizeOf(f.nodes, f.tree, va).value, va, size);
      FreePageKeepsInv(cfg, g, n0, mem0, f, va, size, start, end);
      FreeKeepsInv(cfg, g, n0, mem0, FreePage(cfg, f, va, size, start, end), va + step, size - step, start, end);
    }
  }

  lemma SamePageGone(cfg: Config, nodes: Forest, r: Forest, tree: nat, va: nat, x: nat)
    requires ValidConfig(cfg) && WellFormed(cfg, nodes) && WellFormed(cfg, r) && Shrunk(nodes, r) && PageGone(cfg, nodes, r, tree, va)
    requires var unit := PageSizeAt(nodes[TableSlot(tree, 1, va)].kind); va <= x && va % unit + (x - va) < unit
    ensures LeafOf(cfg, r, tree, x) == None
  {
    hide LeafSlot, Shrunk, WellFormed, PageGone;
    PageGoneLookup(cfg, nodes, r, tree, va, tree, va);
    var p := TableSlot(tree, 1, va);
    PdePresent(cfg, nodes, r, tree, va);
    PdeKind(cfg, nodes, p);
    if p in r { KeptNode(nodes, r, p); }
    var unit := PageSizeAt(nodes[p].kind);
    SamePage(va, x - va, unit);
    NoLeafInPage(cfg, r, tree, nodes[p].kind, va, x);
  }

  lemma NoLeafInPage(cfg: Config, nodes: Forest, tree: nat, kind: Kind, va: nat, x: nat)
    requires LeafOf(cfg, nodes, tree, va) == None && (kind.Pte4KB? || kind.Pte64KB? || kind.Page2MB?)
    requires TableSlot(tree, 1, va) in nodes ==> nodes[TableSlot(tree, 1, va)].kind == kind
    requires va / PageSizeAt(kind) == x / PageSizeAt(kind)
    ensures LeafOf(cfg, nodes, tree, x) == None
  {
    hide LeafSlot;
    if !kind.Page2MB? { SamePdeSlot(va, x, PageSizeAt(kind)); LeafSlotInjective(cfg, tree, kind, va, x); }
  }

  lemma PdePresent(cfg: Config, nodes: Forest, nodes': Forest, tree: nat, va: nat)
    requires PageGone(cfg, nodes, nodes', tree, va)
    ensures TableSlot(tree, 1, va) in nodes
  {
  }

  /** After a free that ran to its end, no address of the range has a leaf. */
  lemma {:induction false} FreeClearsRange(cfg: Config, g: Layout, n0: Forest, mem0: Physical, f: Freeing, va: nat, size: nat, start: nat, end: nat, x: nat)
    requires FreeInv(cfg, g, n0, mem0, f) && FreeFrom(cfg, f, va, size, start, end).1 && va <= x < va + size
    ensures LeafOf(cfg, FreeFrom(cfg, f, va, size, start, end).0.nodes, f.tree, x) == None
    decreases size
  {
    hide FreePage, FreeFrom, FreeInv, LeafOf, PageGone, Shrunk, WellFormed, PageStep, ValidPhysical, ReturnsFrames, QueueOk, PageSizeAt;
    FreeTurn(cfg, f, va, size, start, end);
    var unit := PageSizeOf(f.nodes, f.tree, va).value;
    var step := PageStep(unit, va, size);
    FreePageKeepsInv(cfg, g, n0, mem0, f, va, size, start, end);
    var f1 := FreePage(cfg, f, va, size, start, end);
    if va + step <= x {
      FreeClearsRange(cfg, g, n0, mem0, f1, va + step, size - step, start, end, x);
    } else {
      FreeKeepsInv(cfg, g, n0, mem0, f1, va + step, size - step, start, end);
      InvParts(cfg, g, n0, mem0, f);
      InvParts(cfg, g, n0, mem0, f1);
      InStep(va, x, unit, size);
      SamePageGone(cfg, f.nodes, f1.nodes, f.tree, va, x);
      GoneStaysGone(cfg, f1.nodes, FreeFrom(cfg, f1, va + step, size - step, start, end).0.nodes, f.tree, x);
    }
  }

  lemma InStep(va: nat, x: nat, unit: nat, size: nat)
    requires unit > 0 && va <= x < va + PageStep(unit, va, size)
    ensures va % unit + (x - va) < unit
  {
  }

  /** Addresses that share no leaf page with the range, in any tree, keep their lookup, however far the call gets. */
  lemma {:induction false} FreeKeepsOutside(cfg: Config, g: Layout, n0: Forest, mem0: Physical, f: Freeing, va: nat, size: nat, start: nat, end: nat, tree: nat, x: nat)
    requires FreeInv(cfg, g, n0, mem0, f) && Apart(cfg, f.nodes, f.tree, va, size, tree, x)
    ensures SameLookup(cfg, f.nodes, FreeFrom(cfg, f, va, size, start, end).0.nodes, tree, x)
    decreases size
  {
    hide FreePage, FreeFrom, FreeInv, LeafOf, PageGone, Shrunk, SameLookup, Apart, PageStep, PageSizeOf, WellFormed, ValidPhysical, ReturnsFrames, QueueOk;
    if size == 0 {
      FreeNothing(cfg, f, va, start, end);
      SameLookupReflexive(cfg, f.nodes, tree, x);
    } else {
      FreeTurn(cfg, f, va, size, start, end);
      if PageSizeOf(f.nodes, f.tree, va).Some? {
        var step := PageStep(PageSizeOf(f.nodes, f.tree, va).value, va, size);
        FreePageKeepsInv(cfg, g, n0, mem0, f, va, size, start, end);
        var f1 := FreePage(cfg, f, va, size, start, end);
        InvParts(cfg, g, n0, mem0, f);
        InvParts(cfg, g, n0, mem0, f1);
        OnePageOutside(cfg, f, f1.nodes, va, step, size, tree, x);
        FreeKeepsOutside(cfg, g, n0, mem0, f1, va + step, size - step, start, end, tree, x);
        SameLookupTransitive(cfg, f.nodes, f1.nodes, FreeFrom(cfg, f, va, size, start, end).0.nodes, tree, x);
      } else {
        SameLookupReflexive(cfg, f.nodes, tree, x);
      }
    }
  }

  lemma SameLookupReflexive(cfg: Config, a: Forest, tree: nat, x: nat)
    ensures SameLookup(cfg, a, a, tree, x)
  {
  }

  lemma SameLookupTransitive(cfg: Config, a: Forest, b: Forest, c: Forest, tree: nat, x: nat)
    requires SameLookup(cfg, a, b, tree, x) && SameLookup(cfg, b, c, tree, x)
    ensures SameLookup(cfg, a, c, tree, x)
  {
    hide LeafOf, Translate, LeafSize;
  }

  lemma OnePageOutside(cfg: Config, f: Freeing, r: Forest, va: nat, step: nat, size: nat, tree: nat, x: nat)
    requires ValidConfig(cfg) && WellFormed(cfg, f.nodes) && WellFormed(cfg, r) && Shrunk(f.nodes, r) && PageGone(cfg, f.nodes, r, f.tree, va)
    requires 0 < step <= size && Apart(cfg, f.nodes, f.tree, va, size, tree, x)
    ensures SameLookup(cfg, f.nodes, r, tree, x) && Apart(cfg, r, f.tree, va + step, size - step, tree, x)
  {
    hide LeafOf, WellFormed, Shrunk, PageGone, SameLookup;
    assert LeafOf(cfg, f.nodes, tree, x).Some? ==> LeafOf(cfg, f.nodes, f.tree, va) != LeafOf(cfg, f.nodes, tree, x);
    PageGoneLookup(cfg, f.nodes, r, f.tree, va, tree, x);
    StaysApart(cfg, f, r, va, va + step, size - step, tree, x);
  }

  lemma StaysApart(cfg: Config, f: Freeing, r: Forest, va: nat, next: nat, size: nat, tree: nat, x: nat)
    requires ValidConfig(cfg) && WellFormed(cfg, f.nodes) && WellFormed(cfg, r) && Shrunk(f.nodes, r) && PageGone(cfg, f.nodes, r, f.tree, va)
    requires Apart(cfg, f.nodes, f.tree, next, size, tree, x) && SameLookup(cfg, f.nodes, r, tree, x)
    ensures Apart(cfg, r, f.tree, next, size, tree, x)
  {
    hide WellFormed, LeafOf, Shrunk, PageGone;
    forall y | next <= y < next + size && LeafOf(cfg, r, tree, x).Some?
      ensures LeafOf(cfg, r, f.tree, y) != LeafOf(cfg, r, tree, x) {
      LeafGoesOrStays(cfg, f.nodes, r, f.tree, y);
      assert LeafOf(cfg, f.nodes, f.tree, y) != LeafOf(cfg, f.nodes, tree, x);
    }
  }

  lemma LeafGoesOrStays(cfg: Config, n0: Forest, nodes: Forest, tree: nat, x: nat)
    requires Shrunk(n0, nodes)
    ensures LeafOf(cfg, nodes, tree, x) == None || LeafOf(cfg, nodes, tree, x) == LeafOf(cfg, n0, tree, x)
  {
    hide LeafSlot;
    var p := TableSlot(tree, 1, x);
    if p in nodes { KeptNode(n0, nodes, p); }
  }

  lemma LaterLeafIsOther(cfg: Config, nodes: Forest, tree: nat, va: nat, size: nat, x: nat)
    requires ValidConfig(cfg) && WellFormed(cfg, nodes) && LeafOf(cfg, nodes, tree, va).Some? && LeafOf(cfg, nodes, tree, x).Some?
    requires var unit := PageSizeAt(nodes[TableSlot(tree, 1, va)].kind); va + PageStep(unit, va, size) <= x < va + size
    ensures LeafOf(cfg, nodes, tree, x) != LeafOf(cfg, nodes, tree, va)
  {
    hide WellFormed, LeafSlot;
    var p := TableSlot(tree, 1, va);
    var unit := PageSizeAt(nodes[p].kind);
    LeafPageSize(cfg, nodes, tree, va);
    PageEndAfter(va, unit);
    if LeafOf(cfg, nodes, tree, x) == LeafOf(cfg, nodes, tree, va) {
      SameLeafSamePage(cfg, nodes, tree, va, x);
      PageEndAfter(x, unit);
      assert false;
    }
  }

  lemma LeafPageSize(cfg: Config, nodes: Forest, tree: nat, va: nat)
    requires WellFormed(cfg, nodes) && LeafOf(cfg, nodes, tree, va).Some?
    ensures TableSlot(tree, 1, va) in nodes
    ensures LeafSize(nodes, LeafOf(cfg, nodes, tree, va).value) == PageSizeAt(nodes[TableSlot(tree, 1, va)].kind)
  {
    hide WellFormed, LeafSlot;
    PdeKind(cfg, nodes, TableSlot(tree, 1, va));
    LeafSlotParent(cfg, tree, nodes[TableSlot(tree, 1, va)].kind, va);
    LeafSlotLevel(cfg, tree, nodes[TableSlot(tree, 1, va)].kind, va);
  }

  lemma RestStaysMapped(cfg: Config, nodes: Forest, r: Forest, tree: nat, va: nat, size: nat)
    requires ValidConfig(cfg) && WellFormed(cfg, nodes) && WellFormed(cfg, r) && Shrunk(nodes, r) && PageGone(cfg, nodes, r, tree, va)
    requires Mapped(cfg, nodes, tree, va, size) && size > 0
    ensures TableSlot(tree, 1, va) in nodes
    ensures var step := PageStep(PageSizeAt(nodes[TableSlot(tree, 1, va)].kind), va, size);
      Mapped(cfg, r, tree, va + step, size - step)
  {
    hide WellFormed, LeafOf, PageGone, Shrunk, PageStep, PageSizeAt;
    PdePresent(cfg, nodes, r, tree, va);
    var step := PageStep(PageSizeAt(nodes[TableSlot(tree, 1, va)].kind), va, size);
    assert LeafOf(cfg, nodes, tree, va).Some?;
    forall x | va + step <= x < va + size ensures LeafOf(cfg, r, tree, x).Some? {
      LaterLeafIsOther(cfg, nodes, tree, va, size, x);
      PageGoneLookup(cfg, nodes, r, tree, va, tree, x);
    }
  }

  /** Freeing a fully mapped range runs to its end. */
  lemma {:induction false} MappedFreeCompletes(cfg: Config, g: Layout, n0: Forest, mem0: Physical, f: Freeing, va: nat, size: nat, start: nat, end: nat)
    requires FreeInv(cfg, g, n0, mem0, f) && Mapped(cfg, f.nodes, f.tree, va, size)
    ensures FreeFrom(cfg, f, va, size, start, end).1
    decreases size
  {
    hide FreePage, FreeInv, LeafOf, PageGone, Shrunk, WellFormed, PageStep, ValidPhysical, ReturnsFrames, QueueOk, PageSizeAt;
    if size > 0 {
      FreeTurn(cfg, f, va, size, start, end);
      InvParts(cfg, g, n0, mem0, f);
      assert LeafOf(cfg, f.nodes, f.tree, va).Some?;
      LeafPageSize(cfg, f.nodes, f.tree, va);
      var step := PageStep(PageSizeOf(f.nodes, f.tree, va).value, va, size);
      FreePageKeepsInv(cfg, g, n0, mem0, f, va, size, start, end);
      var f1 := FreePage(cfg, f, va, size, start, end);
      InvParts(cfg, g, n0, mem0, f1);
      RestStaysMapped(cfg, f.nodes, f1.nodes, f.tree, va, size);
      MappedFreeCompletes(cfg, g, n0, mem0, f1, va + step, size - step, start, end);
    }
  }

  // ---- emptied tables ----

  /** One page never leaves its own PTE behind empty, and empties no other. */
  lemma PageGoneTables(cfg: Config, nodes: Forest, r: Forest, tree: nat, va: nat, p: Slot)
    requires ValidConfig(cfg) && WellFormed(cfg, nodes) && PageGone(cfg, nodes, r, tree, va)
    requires p.level == 1 && p in r && (p == TableSlot(tree, 1, va) || !Empty(nodes, p))
    ensures !Empty(r, p)
  {
    hide WellFormed, LeafSlot;
    var q := TableSlot(tree, 1, va);
    PdeKind(cfg, nodes, q);
    LeafSlotParent(cfg, tree, nodes[q].kind, va);
    LeafSlotLevel(cfg, tree, nodes[q].kind, va);
    if p != q {
      var c :| c in nodes && Parent(c) == p;
      assert c in r;
    } else {
      var s := LeafSlot(cfg, tree, nodes[q].kind, va);
      var c :| c in nodes - {s} && Parent(c) == p;
      assert c in r;
    }
  }

  /** When a free has run to its end, every PTE it passed through and left in place still has an entry. */
  lemma {:induction false} FreeLeavesNoEmptyPte(cfg: Config, g: Layout, n0: Forest, mem0: Physical, f: Freeing, va: nat, size: nat, start: nat, end: nat, p: Slot)
    requires FreeInv(cfg, g, n0, mem0, f) && FreeFrom(cfg, f, va, size, start, end).1
    requires p.level == 1 && (!Empty(f.nodes, p) || exists x :: va <= x < va + size && p == TableSlot(f.tree, 1, x))
    requires p in FreeFrom(cfg, f, va, size, start, end).0.nodes
    ensures !Empty(FreeFrom(cfg, f, va, size, start, end).0.nodes, p)
    decreases size
  {
    hide FreePage, FreeFrom, FreeInv, Empty, PageGone, Shrunk, WellFormed, PageStep, ValidPhysical, ReturnsFrames, QueueOk;
    if size == 0 {
      FreeNothing(cfg, f, va, start, end);
    } else {
      FreeTurn(cfg, f, va, size, start, end);
      InvParts(cfg, g, n0, mem0, f);
      var unit := PageSizeOf(f.nodes, f.tree, va).value;
      var step := PageStep(unit, va, size);
      FreePageKeepsInv(cfg, g, n0, mem0, f, va, size, start, end);
      var f1 := FreePage(cfg, f, va, size, start, end);
      FreeKeepsInv(cfg, g, n0, mem0, f1, va + step, size - step, start, end);
      KeptNode(f1.nodes, FreeFrom(cfg, f1, va + step, size - step, start, end).0.nodes, p);
      if p == TableSlot(f.tree, 1, va) || !Empty(f.nodes, p) {
        PageGoneTables(cfg, f.nodes, f1.nodes, f.tree, va, p);
      } else {
        var x :| va <= x < va + size && p == TableSlot(f.tree, 1, x);
        if x < va + step { InStepSamePde(cfg, f.nodes, f.tree, va, x, size); }
      }
      FreeLeavesNoEmptyPte(cfg, g, n0, mem0, f1, va + step, size - step, start, end, p);
    }
  }

  lemma InStepSamePde(cfg: Config, nodes: Forest, tree: nat, va: nat, x: nat, size: nat)
    requires TableSlot(tree, 1, va) in nodes && WellFormed(cfg, nodes)
    requires va <= x < va + PageStep(PageSizeAt(nodes[TableSlot(tree, 1, va)].kind), va, size)
    ensures TableSlot(tree, 1, x) == TableSlot(tree, 1, va)
  {
    hide WellFormed;
    var kind := nodes[TableSlot(tree, 1, va)].kind;
    PdeKind(cfg, nodes, TableSlot(tree, 1, va));
    InStep(va, x, PageSizeAt(kind), size);
    SamePage(va, x - va, PageSizeAt(kind));
    if !kind.Page2MB? { SamePdeSlot(va, x, PageSizeAt(kind)); }
  }

  // ---- which nodes go ----

  /** Only leaves of the range and tables are deleted. */
  lemma {:induction false} DeletedLeaves(cfg: Config, g: Layout, n0: Forest, mem0: Physical, f: Freeing, va: nat, size: nat, start: nat, end: nat, s: Slot)
    requires FreeInv(cfg, g, n0, mem0, f) && s in f.nodes && !IsTable(f.nodes[s].kind)
    requires s !in FreeFrom(cfg, f, va, size, start, end).0.nodes
    ensures exists x :: va <= x < va + size && LeafOf(cfg, f.nodes, f.tree, x) == Some(s)
    decreases size
  {
    hide FreePage, FreeFrom, FreeInv, PageGone, Shrunk, WellFormed, PageStep, ValidPhysical, ReturnsFrames, QueueOk, LeafOf;
    if size == 0 {
      FreeNothing(cfg, f, va, start, end);
    } else {
      FreeTurn(cfg, f, va, size, start, end);
      if PageSizeOf(f.nodes, f.tree, va).Some? {
        InvParts(cfg, g, n0, mem0, f);
        var step := PageStep(PageSizeOf(f.nodes, f.tree, va).value, va, size);
        FreePageKeepsInv(cfg, g, n0, mem0, f, va, size, start, end);
        var f1 := FreePage(cfg, f, va, size, start, end);
        if s in f1.nodes {
          KeptNode(f.nodes, f1.nodes, s);
          DeletedLeaves(cfg, g, n0, mem0, f1, va + step, size - step, start, end, s);
          var x :| va + step <= x < va + size && LeafOf(cfg, f1.nodes, f.tree, x) == Some(s);
          LeafGoesOrStays(cfg, f.nodes, f1.nodes, f.tree, x);
        } else {
          GoneLeafIsHere(cfg, f.nodes, f1.nodes, f.tree, va, s);
        }
      }
    }
  }

  lemma GoneLeafIsHere(cfg: Config, nodes: Forest, r: Forest, tree: nat, va: nat, s: Slot)
    requires ValidConfig(cfg) && WellFormed(cfg, nodes) && PageGone(cfg, nodes, r, tree, va) && s in nodes && s !in r && !IsTable(nodes[s].kind)
    ensures LeafOf(cfg, nodes, tree, va) == Some(s)
  {
    hide WellFormed, LeafSlot, Empty;
    var p := TableSlot(tree, 1, va);
    PdeKind(cfg, nodes, p);
    if nodes[p].kind.Page2MB? && s != p { TableAbove(cfg, nodes, s); }
  }

  /** A PDE that no page of the range lies under is neither removed nor emptied. */
  lemma {:induction false} OtherPdeStays(cfg: Config, g: Layout, n0: Forest, mem0: Physical, f: Freeing, va: nat, size: nat, start: nat, end: nat, d: Slot)
    requires FreeInv(cfg, g, n0, mem0, f) && d.level == 2 && forall x :: va <= x < va + size ==> d != TableSlot(f.tree, 2, x)
    ensures var r := FreeFrom(cfg, f, va, size, start, end).0.nodes; (d in r <==> d in f.nodes) && (Empty(r, d) <==> Empty(f.nodes, d))
    decreases size
  {
    hide FreePage, FreeFrom, FreeInv, PageGone, Shrunk, WellFormed, PageStep, ValidPhysical, ReturnsFrames, QueueOk, Empty, Span;
    if size == 0 {
      FreeNothing(cfg, f, va, start, end);
    } else {
      FreeTurn(cfg, f, va, size, start, end);
      if PageSizeOf(f.nodes, f.tree, va).Some? {
        InvParts(cfg, g, n0, mem0, f);
        var step := PageStep(PageSizeOf(f.nodes, f.tree, va).value, va, size);
        FreePageKeepsInv(cfg, g, n0, mem0, f, va, size, start, end);
        var f1 := FreePage(cfg, f, va, size, start, end);
        OtherPdeKept(cfg, f.nodes, f1.nodes, f.tree, va, d);
        OtherPdeStays(cfg, g, n0, mem0, f1, va + step, size - step, start, end, d);
      }
    }
  }

  lemma OtherPdeKept(cfg: Config, nodes: Forest, r: Forest, tree: nat, va: nat, d: Slot)
    requires WellFormed(cfg, nodes) && PageGone(cfg, nodes, r, tree, va) && d.level == 2 && d != TableSlot(tree, 2, va)
    ensures (d in r <==> d in nodes) && (Empty(r, d) <==> Empty(nodes, d))
  {
    hide WellFormed, LeafSlot, Span;
    var p := TableSlot(tree, 1, va);
    LeafSlotLevel(cfg, tree, nodes[p].kind, va);
    ChildIsTableSlot(cfg, tree, 1, va);
    if !Empty(nodes, d) {
      var c :| c in nodes && Parent(c) == d;
      assert c.level == 1 && c != p;
      assert c in r;
    }
  }

  /** The last address of the range under its PDE. */
  predicate LastUnderPde(x: nat, end: nat) {
    x + 1 == end || (x + 1 < end && (x + 1) / Span(2) != x / Span(2))
  }

  /** A PDE is removed exactly when the call empties it and the last page the call frees under it is a 2MB page. */
  lemma {:induction false} PdeGoesExactly(cfg: Config, g: Layout, n0: Forest, mem0: Physical, f: Freeing, va: nat, size: nat, start: nat, end: nat, x: nat)
    requires FreeInv(cfg, g, n0, mem0, f) && Mapped(cfg, f.nodes, f.tree, va, size)
    requires va <= x < va + size && LastUnderPde(x, va + size)
    ensures var r := FreeFrom(cfg, f, va, size, start, end).0.nodes; var p := TableSlot(f.tree, 1, x); var d := TableSlot(f.tree, 2, x);
      p in f.nodes && (d !in r <==> Empty(r, d) && f.nodes[p].kind.Page2MB?)
    decreases size
  {
    hide FreePage, FreeFrom, FreeInv, LeafOf, PageGone, Shrunk, WellFormed, PageStep, ValidPhysical, ReturnsFrames, QueueOk, Empty, Span, LastUnderPde;
    FreeTurn(cfg, f, va, size, start, end);
    InvParts(cfg, g, n0, mem0, f);
    assert LeafOf(cfg, f.nodes, f.tree, va).Some? && LeafOf(cfg, f.nodes, f.tree, x).Some?;
    LeafPageSize(cfg, f.nodes, f.tree, va);
    LeafPageSize(cfg, f.nodes, f.tree, x);
    var unit := PageSizeOf(f.nodes, f.tree, va).value;
    var step := PageStep(unit, va, size);
    FreePageKeepsInv(cfg, g, n0, mem0, f, va, size, start, end);
    var f1 := FreePage(cfg, f, va, size, start, end);
    InvParts(cfg, g, n0, mem0, f1);
    if va + step <= x {
      RestStaysMapped(cfg, f.nodes, f1.nodes, f.tree, va, size);
      PdeGoesExactly(cfg, g, n0, mem0, f1, va + step, size - step, start, end, x);
      KeptNode(f.nodes, f1.nodes, TableSlot(f.tree, 1, x));
    } else {
      InStepSamePde(cfg, f.nodes, f.tree, va, x, size);
      LastPageOfPde(va, step, size, x, unit);
      OtherPdeStays(cfg, g, n0, mem0, f1, va + step, size - step, start, end, TableSlot(f.tree, 2, x));
      PdeAfterPage(cfg, f.nodes, f1.nodes, f.tree, va);
      SamePdeSamePdp(va, x);
    }
  }

  lemma SamePdeSamePdp(va: nat, x: nat)
    requires va / Span(1) == x / Span(1)
    ensures va / Span(2) == x / Span(2)
  {
    SpanStep(va, 1);
    SpanStep(x, 1);
  }

  lemma LastPageOfPde(va: nat, step: nat, size: nat, x: nat, unit: nat)
    requires va <= x < va + step <= va + size && LastUnderPde(x, va + size)
    requires unit == PAGE_4KB || unit == PAGE_64KB || unit == PAGE_2MB
    requires step == PageStep(unit, va, size)
    ensures forall y :: va + step <= y < va + size ==> y / Span(2) != x / Span(2)
  {
    if step < size {
      PageInsidePdp(va, unit, step, x);
      forall y | va + step <= y < va + size ensures y / Span(2) != x / Span(2) { LaterPdp(x, y); }
    }
  }

  lemma PageInsidePdp(va: nat, unit: nat, step: nat, x: nat)
    requires unit == PAGE_4KB || unit == PAGE_64KB || unit == PAGE_2MB
    requires step == unit - va % unit && va <= x < va + step
    ensures x + 1 < va + step ==> (x + 1) / Span(2) == x / Span(2)
  {
    if x + 1 < va + step {
      assert x / unit == va / unit && (x + 1) / unit == va / unit by { SamePage(va, x - va, unit); SamePage(va, x + 1 - va, unit); }
      UnitOfPdp(x, unit);
      UnitOfPdp(x + 1, unit);
    }
  }

  lemma UnitOfPdp(x: nat, unit: nat)
    requires unit == PAGE_4KB || unit == PAGE_64KB || unit == PAGE_2MB
    ensures x / Span(2) == x / unit / (Span(2) / unit)
  {
    DivideTwice(x, unit, Span(2) / unit);
  }

  lemma LaterPdp(x: nat, y: nat)
    requires x + 1 <= y && (x + 1) / Span(2) != x / Span(2)
    ensures y / Span(2) != x / Span(2)
  {
  }

  lemma PdeAfterPage(cfg: Config, nodes: Forest, r: Forest, tree: nat, va: nat)
    requires ValidConfig(cfg) && WellFormed(cfg, nodes) && WellFormed(cfg, r) && PageGone(cfg, nodes, r, tree, va)
    ensures var p := TableSlot(tree, 1, va); var d := TableSlot(tree, 2, va); p in nodes && (d !in r <==> Empty(r, d) && nodes[p].kind.Page2MB?)
  {
    hide WellFormed, LeafSlot, Span;
    var p, d := TableSlot(tree, 1, va), TableSlot(tree, 2, va);
    LeafSlotLevel(cfg, tree, nodes[p].kind, va);
    ChildIsTableSlot(cfg, tree, 1, va);
    TableOverPage(cfg, nodes, p);
    if nodes[p].kind.Page2MB? && d in r { assert Empty(r, d) <==> Empty(nodes - {p}, d); }
    if d !in r { PdeEmptied(nodes, r, p, d); }
  }

  lemma TableOverPage(cfg: Config, nodes: Forest, p: Slot)
    requires ValidConfig(cfg) && WellFormed(cfg, nodes) && p in nodes && p.level == 1
    ensures Parent(p) in nodes
  {
    assert Placed(cfg, nodes, p);
  }

  lemma PdeEmptied(nodes: Forest, r: Forest, p: Slot, d: Slot)
    requires r.Keys == nodes.Keys - {p} - {d} && Empty(nodes - {p}, d)
    ensures Empty(r, d)
  {
    forall x | x in r ensures Parent(x) != d { assert x in nodes - {p}; }
  }

  lemma StartFree(cfg: Config, g: Layout, f: Freeing)
    requires ValidConfig(cfg) && WellFormed(cfg, f.nodes) && ValidPhysical(f.mem, g) && f.table == [[], [], [], [], []]
    ensures FreeInv(cfg, g, f.nodes, f.mem, f)
  {
    hide WellFormed, ValidPhysical, ArenaFor, InUse;
    forall s | s in f.nodes ensures f.nodes[s] == f.nodes[s].(ps64 := f.nodes[s].ps64) {}
    assert forall i, b :: !Released(f.nodes, f.nodes, f.mem, i, b);
  }
}
