/** Mapping a range onto given physical memory: when every byte ends up where the caller asked. */
module MapOverride {
  import opened Wrappers
  import opened Arithmetic
  import opened PageTables
  import opened PhysicalMemory
  import opened WalkModel
  import opened TreeFacts
  import opened WalkLookup

  /** The page size a walk will use at an address: what is there decides, otherwise the request. */
  function PlannedSize(nodes: Forest, q: Request, va: nat): (r: nat)
    ensures r == PAGE_4KB || r == PAGE_64KB || r == PAGE_2MB
  {
    var p := TableSlot(q.tree, 1, va);
    if p in nodes then PageSizeAt(nodes[p].kind)
    else if q.pageSize == PAGE_2MB then PAGE_2MB else PteSize(PteKind(q.pageSize))
  }

  /** The caller-side condition: the range starts on a boundary of its first page, and if 2MB pages occur
      the two addresses are the same distance from a 2MB boundary. */
  ghost predicate Aligned(nodes: Forest, q: Request, va: nat, size: nat, target: nat) {
    && va % PlannedSize(nodes, q, va) == 0
    && forall x :: va <= x < va + size && PlannedSize(nodes, q, x) == PAGE_2MB ==> target % PAGE_2MB == va % PAGE_2MB
  }

  /** Byte by byte, the range is mapped where it was asked to be. */
  ghost predicate Overridden(cfg: Config, nodes: Forest, q: Request, va: nat, size: nat, target: nat) {
    forall x :: va <= x < va + size ==> Translate(cfg, nodes, q.tree, x) == Some(Target(target + (x - va), q.banks != 0))
  }

  // ---- one page ----

  function Landing(pageSize: nat, target: nat): nat {
    if pageSize == PAGE_2MB then Realign(target) else target
  }

  ghost predicate Lands(nodes: Forest, q: Request, va: nat, target: nat, v: Visit) {
    v.leaf.Some? && v.leaf.value in v.w.nodes && v.pageSize == PlannedSize(nodes, q, va)
    && v.target == Landing(v.pageSize, target)
    && v.w.nodes[v.leaf.value].phys == v.target && v.w.nodes[v.leaf.value].bank == q.banks
  }

  lemma PteStepLands(cfg: Config, q: Request, w: Walk, va: nat, size: nat, target: nat, info: PageInfo)
    requires Ready(cfg, q, w.nodes, va) && q.mapping && q.mode.Reserve?
    requires TableSlot(q.tree, 1, va) in w.nodes && IsTable(w.nodes[TableSlot(q.tree, 1, va)].kind)
    ensures Lands(w.nodes, q, va, target, PteStep(cfg, q, w, va, size, q.banks, target, info))
  {
    hide VisitLeaf, LeafSlot, WellFormed, Evolves, PhysicalMemory.Reserve;
    var kind := w.nodes[TableSlot(q.tree, 1, va)].kind;
    var s := LeafSlot(cfg, q.tree, kind, va);
    LeafSlotLevel(cfg, q.tree, kind, va);
    var w1 := PlaceLeaf(q, w, s, Page, PteSize(kind), q.banks, target, info);
    LeafVisitKeepsFrame(cfg, q, w.nodes, w1, s, PteSize(kind), size);
  }

  lemma LeafVisitKeepsFrame(cfg: Config, q: Request, before: Forest, w: Walk, s: Slot, pageSize: nat, size: nat)
    requires s in w.nodes && s.level < 5
    ensures var r := VisitLeaf(cfg, q, before, w, s, pageSize, size);
      r.nodes[s].phys == w.nodes[s].phys && r.nodes[s].bank == w.nodes[s].bank
  {
    hide Ps64Visit, PlainVisit, WasGroup;
    Ps64VisitEvolves(cfg, w, s, WasGroup(cfg, before, s), size);
  }

  lemma PdeStepLands(cfg: Config, q: Request, w: Walk, va: nat, size: nat, target: nat, info: PageInfo)
    requires Ready(cfg, q, w.nodes, va) && q.mapping && q.mode.Reserve? && TableSlot(q.tree, 2, va) in w.nodes
    ensures Lands(w.nodes, q, va, target, PdeStep(cfg, q, w, va, size, q.banks, target, info))
  {
    hide PteStep, PlainVisit, AddTable, WellFormed, Grown, Span, PhysicalMemory.Reserve;
    var s := TableSlot(q.tree, 1, va);
    ChildIsTableSlot(cfg, q.tree, 1, va);
    TableAbove(cfg, w.nodes, TableSlot(q.tree, 2, va));
    GrownReflexive(cfg, q.tree, va, w.nodes);
    if s in w.nodes { KindAtPde(cfg, w.nodes, s); }
    if s in w.nodes && !w.nodes[s].kind.Page2MB? {
      PteStepLands(cfg, q, PlainVisit(cfg, w, s, q.mapping), va, size, target, info);
    } else if s !in w.nodes && q.pageSize != PAGE_2MB {
      AddTableFacts(cfg, w, va, s, PteKind(q.pageSize));
      var w2 := PlainVisit(cfg, AddTable(w, s, PteKind(q.pageSize)), s, true);
      GrownStaysReady(cfg, q, va, w.nodes, w2.nodes);
      PteStepLands(cfg, q, w2, va, size, target, info);
    }
  }

  lemma PageVisitLands(cfg: Config, q: Request, w: Walk, va: nat, size: nat, target: nat, info: PageInfo)
    requires Ready(cfg, q, w.nodes, va) && q.mapping && q.mode.Reserve?
    ensures Lands(w.nodes, q, va, target, PageVisit(cfg, q, w, va, size, target, info))
  {
    hide PdeStep, TablesDown, Grown, WellFormed, Span, Landing;
    RootIsTableSlot(cfg, q.tree, va);
    TablesDownFacts(cfg, q, w, va, cfg.levels - 1);
    var (w1, found) := TablesDown(cfg, q, w, va, cfg.levels - 1);
    GrownStaysReady(cfg, q, va, w.nodes, w1.nodes);
    PdeStepLands(cfg, q, w1, va, size, target, info);
    HighTablesKeepPlan(cfg, q, w.nodes, w1.nodes, va, va);
  }

  lemma HighTablesKeepPlan(cfg: Config, q: Request, nodes: Forest, nodes': Forest, va: nat, x: nat)
    requires Grown(cfg, q.tree, va, nodes, nodes', None) && forall s :: s in nodes' && s !in nodes ==> s.level >= 2
    ensures PlannedSize(nodes', q, x) == PlannedSize(nodes, q, x)
  {
    hide WellFormed;
  }

  /** A visit puts in place exactly what was planned, and changes no plan. */
  lemma VisitKeepsPlan(cfg: Config, q: Request, w: Walk, va: nat, v: Visit, x: nat)
    requires Visited(cfg, q, w, va, v) && v.leaf.Some? && v.leaf.value in v.w.nodes && v.pageSize == PlannedSize(w.nodes, q, va)
    ensures PlannedSize(v.w.nodes, q, x) == PlannedSize(w.nodes, q, x)
  {
    hide WellFormed, LeafSlot, PteSize;
    var p := TableSlot(q.tree, 1, x);
    if p in v.w.nodes && p !in w.nodes {
      PlanAtVisited(cfg, q, v.w.nodes, va, v);
      assert p == TableSlot(q.tree, 1, va) by { LeafSlotLevel(cfg, q.tree, v.w.nodes[TableSlot(q.tree, 1, va)].kind, va); }
    }
  }

  lemma PlanAtVisited(cfg: Config, q: Request, nodes: Forest, va: nat, v: Visit)
    requires WellFormed(cfg, nodes) && LeafOf(cfg, nodes, q.tree, va) == v.leaf && v.leaf.Some?
    requires v.pageSize == LeafSize(nodes, v.leaf.value)
    ensures TableSlot(q.tree, 1, va) in nodes && PageSizeAt(nodes[TableSlot(q.tree, 1, va)].kind) == v.pageSize
  {
    hide WellFormed, LeafSlot;
    PdeKind(cfg, nodes, TableSlot(q.tree, 1, va));
    LeafSlotParent(cfg, q.tree, nodes[TableSlot(q.tree, 1, va)].kind, va);
    LeafSlotLevel(cfg, q.tree, nodes[TableSlot(q.tree, 1, va)].kind, va);
  }

  lemma RealignIsUp(target: nat)
    ensures Realign(target) >= target
    ensures Realign(target) == target <==> target % PAGE_2MB == 0
    ensures Realign(target) % PAGE_2MB == 0
  {
  }

  // ---- alignment of the rest of the range ----

  lemma SamePlanSamePde(nodes: Forest, q: Request, va: nat, x: nat)
    requires va / PAGE_2MB == x / PAGE_2MB
    ensures PlannedSize(nodes, q, va) == PlannedSize(nodes, q, x)
  {
  }

  /** The page after a whole page starts on a boundary of its own size. */
  lemma NextPageAligned(nodes: Forest, q: Request, va: nat)
    ensures var next := PageEnd(va, PlannedSize(nodes, q, va)); next % PlannedSize(nodes, q, next) == 0
  {
    hide PlannedSize;
    var unit := PlannedSize(nodes, q, va);
    var next := PageEnd(va, unit);
    PageEndAligned(va, unit);
    if va / PAGE_2MB == next / PAGE_2MB { SamePlanSamePde(nodes, q, va, next); }
  }

  /** The end of a page is a boundary of its size, and of 2MB when it leaves the 2MB block. */
  lemma PageEndAligned(va: nat, unit: nat)
    requires unit == PAGE_4KB || unit == PAGE_64KB || unit == PAGE_2MB
    ensures PageEnd(va, unit) % unit == 0
    ensures va / PAGE_2MB != PageEnd(va, unit) / PAGE_2MB ==>
      PageEnd(va, unit) % PAGE_4KB == 0 && PageEnd(va, unit) % PAGE_64KB == 0 && PageEnd(va, unit) % PAGE_2MB == 0
  {
    hide PageEnd;
    if unit == PAGE_4KB { EndOf4KB(va); } else if unit == PAGE_64KB { EndOf64KB(va); } else { EndOf2MB(va); }
    if PageEnd(va, unit) % PAGE_2MB == 0 { LargeIsSmall(PageEnd(va, unit)); }
  }

  lemma EndOf2MB(va: nat)
    ensures PageEnd(va, PAGE_2MB) % PAGE_2MB == 0
  {
  }

  lemma LargeIsSmall(n: nat)
    requires n % PAGE_2MB == 0
    ensures n % PAGE_4KB == 0 && n % PAGE_64KB == 0
  {
  }

  lemma EndOf4KB(va: nat)
    ensures PageEnd(va, PAGE_4KB) % PAGE_4KB == 0
    ensures va / PAGE_2MB != PageEnd(va, PAGE_4KB) / PAGE_2MB ==> PageEnd(va, PAGE_4KB) % PAGE_2MB == 0
  {
    var n := va / PAGE_4KB;
    assert va / PAGE_2MB == n / 512 && PageEnd(va, PAGE_4KB) / PAGE_2MB == (n + 1) / 512;
  }

  lemma EndOf64KB(va: nat)
    ensures PageEnd(va, PAGE_64KB) % PAGE_64KB == 0
    ensures va / PAGE_2MB != PageEnd(va, PAGE_64KB) / PAGE_2MB ==> PageEnd(va, PAGE_64KB) % PAGE_2MB == 0
  {
    var n := va / PAGE_64KB;
    assert va / PAGE_2MB == n / 32 && PageEnd(va, PAGE_64KB) / PAGE_2MB == (n + 1) / 32;
  }

  lemma SplitAligned(nodes: Forest, q: Request, va: nat, size: nat, target: nat, step: nat)
    requires 0 < step < size && va + step == PageEnd(va, PlannedSize(nodes, q, va))
    requires FirstPageOk(nodes, q, va, target)
    ensures Aligned(nodes, q, va, size, target) <==> Aligned(nodes, q, va + step, size - step, target + step)
  {
    hide PlannedSize, PageEnd;
    NextPageAligned(nodes, q, va);
    SameOffset(target, va, step);
    if Aligned(nodes, q, va + step, size - step, target + step) {
      forall x | va <= x < va + size && PlannedSize(nodes, q, x) == PAGE_2MB ensures target % PAGE_2MB == va % PAGE_2MB {
        if x < va + step { PlanInPage(nodes, q, va, x); }
      }
    }
    if Aligned(nodes, q, va, size, target) {
      forall x | va + step <= x < va + size && PlannedSize(nodes, q, x) == PAGE_2MB
        ensures (target + step) % PAGE_2MB == (va + step) % PAGE_2MB {
      }
    }
  }

  lemma SameOffset(a: nat, b: nat, step: nat)
    ensures (a + step) % PAGE_2MB == (b + step) % PAGE_2MB <==> a % PAGE_2MB == b % PAGE_2MB
  {
  }

  lemma PlanInPage(nodes: Forest, q: Request, va: nat, x: nat)
    requires va <= x < PageEnd(va, PlannedSize(nodes, q, va))
    ensures PlannedSize(nodes, q, x) == PlannedSize(nodes, q, va)
  {
    hide PlannedSize;
    var unit := PlannedSize(nodes, q, va);
    PageEndAfter(va, unit);
    SamePage(va, x - va, unit);
    if unit != PAGE_2MB { SamePdeSlot(va, x, unit); }
    SamePlanSamePde(nodes, q, va, x);
  }

  // ---- the whole range ----

  /** The page just mapped is where the cursor pointed exactly when it was reached on its own boundary. */
  lemma FirstPageOverridden(cfg: Config, nodes: Forest, r: Forest, q: Request, va: nat, unit: nat, step: nat, target: nat, s: Slot)
    requires WellFormed(cfg, r) && unit > 0 && 0 < step && va % unit + step <= unit
    requires LeafOf(cfg, r, q.tree, va) == Some(s) && LeafSize(r, s) == unit
    requires r[s].phys == Landing(unit, target) && (r[s].bank != 0) == (q.banks != 0)
    requires FirstPageOk(nodes, q, va, target) <==> va % unit == 0 && (unit == PAGE_2MB ==> target % PAGE_2MB == 0)
    ensures Overridden(cfg, r, q, va, step, target) <==> FirstPageOk(nodes, q, va, target)
  {
    hide LeafOf, LeafSize, WellFormed, Realign, FirstPageOk;
    RealignIsUp(target);
    var landed := Landing(unit, target);
    assert Translate(cfg, r, q.tree, va) == Some(Target(landed + va % unit, q.banks != 0));
    if va % unit == 0 && landed == target {
      forall x | va <= x < va + step ensures Translate(cfg, r, q.tree, x) == Some(Target(target + (x - va), q.banks != 0)) {
        SamePage(va, x - va, unit);
        SamePageSameLeaf(cfg, r, q.tree, va, x);
      }
    }
  }

  lemma SplitOverridden(cfg: Config, r: Forest, q: Request, va: nat, size: nat, target: nat, step: nat)
    requires step <= size
    ensures Overridden(cfg, r, q, va, size, target) <==>
      Overridden(cfg, r, q, va, step, target) && Overridden(cfg, r, q, va + step, size - step, target + step)
  {
    hide Translate;
  }

  lemma PlanKeptAlong(cfg: Config, q: Request, w: Walk, va: nat, v: Visit, start: nat, size: nat, target: nat)
    requires Visited(cfg, q, w, va, v) && v.leaf.Some? && v.leaf.value in v.w.nodes && v.pageSize == PlannedSize(w.nodes, q, va)
    ensures Aligned(v.w.nodes, q, start, size, target) <==> Aligned(w.nodes, q, start, size, target)
  {
    hide PlannedSize, Visited;
    forall x ensures PlannedSize(v.w.nodes, q, x) == PlannedSize(w.nodes, q, x) { VisitKeepsPlan(cfg, q, w, va, v, x); }
  }

  /** A mapping walk puts every byte where it was asked to, whatever was mapped before, if and only if the range is aligned. */
  lemma {:induction false} MapOverridesExactly(cfg: Config, q: Request, w: Walk, va: nat, size: nat, target: nat, i: nat)
    requires Sound(cfg, q, w.nodes) && FitsIn(cfg, va, size) && q.mapping && q.mode.Reserve? && size > 0
    ensures Overridden(cfg, WalkFrom(cfg, q, w, va, size, target, i).0.nodes, q, va, size, target)
            <==> Aligned(w.nodes, q, va, size, target)
    decreases size
  {
    hide PageVisit, WalkFrom, WellFormed, Grown, LeafFits, LeafOf, LeafSize, BankAt, FitsIn, PageEnd, Aligned, Overridden, Landing, PlannedSize, PageStep, FirstPageOk, NextTarget;
    var v := PageVisit(cfg, q, w, va, size, target, InfoAt(q, i));
    TurnFacts(cfg, q, w, va, size, target, InfoAt(q, i));
    WalkTurn(cfg, q, w, va, size, target, i);
    PageVisitLands(cfg, q, w, va, size, target, InfoAt(q, i));
    var step := PageStep(v.pageSize, va, size);
    var next := Report(v, va, size, BankAt(q, va));
    var r := WalkFrom(cfg, q, w, va, size, target, i).0;
    LeafSurvivesWalk(cfg, q, next, va, v.pageSize, step, size, NextTarget(v, va, size), i + 1, v.leaf.value, r);
    WalkStaysSound(cfg, q, w, va, size, target, i);
    StepInPage(v.pageSize, va, size);
    FirstPageMeans(w.nodes, q, va, target, v.pageSize);
    FirstPageOverridden(cfg, w.nodes, r.nodes, q, va, v.pageSize, step, target, v.leaf.value);
    SplitOverridden(cfg, r.nodes, q, va, size, target, step);
    if !FirstPageOk(w.nodes, q, va, target) {
      AlignedStartsOk(w.nodes, q, va, size, target);
    } else if size == step {
      OnePageAligned(w.nodes, q, va, size, target);
      NothingOverridden(cfg, r.nodes, q, va + step, target + step);
    } else {
      MapOverridesExactly(cfg, q, next, va + step, size - step, NextTarget(v, va, size), i + 1);
      CursorFollows(w.nodes, q, va, size, target, v);
      PlanKeptAlong(cfg, q, w, va, v, va + step, size - step, target + step);
      SplitAligned(w.nodes, q, va, size, target, step);
    }
  }

  /** A 2MB page asked for at physical 0x1000 is not put there. */
  lemma MisalignedTargetMoves(cfg: Config, mem: Physical)
    requires cfg.levels == 4
    ensures var nodes := map[Root(cfg, 0) := Node(Pml4, 0x8_0000, 0, NO_ATTRIBUTES, PAGE_4KB, false, false)];
      var q := Request(0, 0, PAGE_2MB, 0, PAGE_2MB, NO_ATTRIBUTES, Reserve, [], true);
      && Sound(cfg, q, nodes) && FitsIn(cfg, 0, PAGE_2MB)
      && !Overridden(cfg, WalkMemory(cfg, q, nodes, mem, 0x1000).0.nodes, q, 0, PAGE_2MB, 0x1000)
  {
    hide WalkFrom, Overridden;
    var nodes := map[Root(cfg, 0) := Node(Pml4, 0x8_0000, 0, NO_ATTRIBUTES, PAGE_4KB, false, false)];
    var q := Request(0, 0, PAGE_2MB, 0, PAGE_2MB, NO_ATTRIBUTES, Reserve, [], true);
    assert Placed(cfg, nodes, Root(cfg, 0));
    assert PlannedSize(nodes, q, 0) == PAGE_2MB;
    assert !Aligned(nodes, q, 0, PAGE_2MB, 0x1000);
    MapOverridesExactly(cfg, q, Start(0, nodes, mem), 0, PAGE_2MB, 0x1000, 0);
  }

  predicate FirstPageOk(nodes: Forest, q: Request, va: nat, target: nat) {
    var unit := PlannedSize(nodes, q, va);
    va % unit == 0 && (unit == PAGE_2MB ==> target % PAGE_2MB == 0)
  }

  lemma FirstPageMeans(nodes: Forest, q: Request, va: nat, target: nat, unit: nat)
    requires unit == PlannedSize(nodes, q, va)
    ensures FirstPageOk(nodes, q, va, target) <==> va % unit == 0 && (unit == PAGE_2MB ==> target % PAGE_2MB == 0)
  {
    hide PlannedSize;
  }

  lemma StepInPage(unit: nat, va: nat, size: nat)
    requires unit > 0 && size > 0
    ensures va % unit + PageStep(unit, va, size) <= unit
    ensures PageStep(unit, va, size) < size ==> va % unit + PageStep(unit, va, size) == unit
  {
  }

  lemma AlignedStartsOk(nodes: Forest, q: Request, va: nat, size: nat, target: nat)
    requires size > 0
    ensures Aligned(nodes, q, va, size, target) ==> FirstPageOk(nodes, q, va, target)
  {
    hide PlannedSize;
  }

  lemma OnePageAligned(nodes: Forest, q: Request, va: nat, size: nat, target: nat)
    requires size > 0 && FirstPageOk(nodes, q, va, target) && PageStep(PlannedSize(nodes, q, va), va, size) == size
    ensures Aligned(nodes, q, va, size, target)
  {
    hide PlannedSize;
    PageEndAfter(va, PlannedSize(nodes, q, va));
    forall x | va <= x < va + size && PlannedSize(nodes, q, x) == PAGE_2MB ensures target % PAGE_2MB == va % PAGE_2MB {
      PlanInPage(nodes, q, va, x);
    }
  }

  lemma NothingOverridden(cfg: Config, nodes: Forest, q: Request, va: nat, target: nat)
    ensures Overridden(cfg, nodes, q, va, 0, target)
  {
  }

  /** The physical cursor advances with the virtual one as long as pages are reached on their boundaries. */
  lemma CursorFollows(nodes: Forest, q: Request, va: nat, size: nat, target: nat, v: Visit)
    requires Lands(nodes, q, va, target, v) && v.pageSize > 0 && FirstPageOk(nodes, q, va, target)
    requires PageStep(v.pageSize, va, size) < size
    ensures NextTarget(v, va, size) == target + PageStep(v.pageSize, va, size)
  {
    hide PlannedSize;
    RealignIsUp(target);
    StepInPage(v.pageSize, va, size);
  }
}
