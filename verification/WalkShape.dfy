/** The exact shape a page visit leaves: which nodes it adds, and where its leaf points. */
module WalkShape {
  import opened Wrappers
  import opened Arithmetic
  import opened PageTables
  import opened WalkModel
  import opened TreeFacts
  import opened WalkLookup
  import opened MapOverride
  import PhysicalMemory

  /** What the PDE slot of an address holds once it has been visited. */
  function PlannedKind(nodes: Forest, q: Request, va: nat): Kind {
    var p := TableSlot(q.tree, 1, va);
    if p in nodes then nodes[p].kind else if q.pageSize == PAGE_2MB then Page2MB else PteKind(q.pageSize)
  }

  function PlannedLeaf(cfg: Config, nodes: Forest, q: Request, va: nat): Slot {
    if PlannedKind(nodes, q, va).Page2MB? then TableSlot(q.tree, 1, va) else LeafSlot(cfg, q.tree, PlannedKind(nodes, q, va), va)
  }

  predicate OnPath(cfg: Config, tree: nat, va: nat, low: nat, s: Slot) {
    low <= s.level < cfg.levels && s.level <= 5 && s == TableSlot(tree, s.level, va)
  }

  /** Where the leaf is after the visit, given what was there before. */
  ghost predicate LeafPlaced(q: Request, va: nat, was: Option<Node>, n: Node, unit: nat, target: nat, info: PageInfo)
    requires unit > 0 && q.pageSize > 0
  {
    n.reserved == (if was.Some? then was.value.reserved else if q.mapping || q.mode.Clone? then 0 else unit)
    && if q.mapping then
      n.phys == Landing(unit, target) && n.bank == q.banks && n.attributes == (if was.Some? then was.value.attributes else q.attributes)
    else if was.Some? then
      n.phys == was.value.phys && n.bank == was.value.bank && n.attributes == was.value.attributes
    else
      n.attributes == q.attributes
      && if q.mode.Clone? then n.phys == RoundDown(info.phys, unit) && n.bank == info.bank
         else n.bank == BankAt(q, va)
  }

  function NodeAt(nodes: Forest, s: Slot): Option<Node> {
    if s in nodes then Some(nodes[s]) else None
  }

  ghost predicate Shaped(cfg: Config, q: Request, w: Walk, va: nat, target: nat, info: PageInfo, v: Visit)
    requires q.pageSize > 0
  {
    var leaf := PlannedLeaf(cfg, w.nodes, q, va);
    var kind := PlannedKind(w.nodes, q, va);
    && v.leaf == Some(leaf) && v.pageSize == PageSizeAt(kind) && leaf in v.w.nodes
    && v.target == (if q.mapping then Landing(v.pageSize, target) else target)
    && (forall s :: s in v.w.nodes <==> s in w.nodes || s == leaf || OnPath(cfg, q.tree, va, if kind.Page2MB? then 2 else 1, s))
    && (TableSlot(q.tree, 1, va) in v.w.nodes && v.w.nodes[TableSlot(q.tree, 1, va)].kind == kind)
    && LeafPlaced(q, va, NodeAt(w.nodes, leaf), v.w.nodes[leaf], v.pageSize, target, info)
  }

  /** A walk that may create what it misses, with one source of addresses. */
  predicate Builds(q: Request) {
    q.pageSize > 0 && !q.mode.Expect? && (q.mapping ==> q.mode.Reserve?)
  }

  lemma PlacedLeafShape(cfg: Config, q: Request, w: Walk, s: Slot, kind: Kind, unit: nat, va: nat, target: nat, info: PageInfo)
    requires Builds(q) && unit > 0 && !(kind.Page2MB? && q.mapping)
    requires q.mapping ==> unit != PAGE_2MB
    ensures var r := PlaceLeaf(q, w, s, kind, unit, BankAt(q, va), target, info);
      && r.nodes.Keys == w.nodes.Keys + {s} && LeafPlaced(q, va, NodeAt(w.nodes, s), r.nodes[s], unit, target, info)
  {
    hide PhysicalMemory.Reserve, RoundDown, BankAt;
    MappingBank(q, va);
  }

  lemma MappingBank(q: Request, va: nat)
    requires q.pageSize > 0
    ensures q.mapping ==> BankAt(q, va) == q.banks
  {
  }

  lemma KeepsPlace(q: Request, va: nat, was: Option<Node>, n: Node, m: Node, unit: nat, target: nat, info: PageInfo)
    requires unit > 0 && q.pageSize > 0 && LeafPlaced(q, va, was, n, unit, target, info)
    requires m == n.(ps64 := m.ps64, pending := m.pending)
    ensures LeafPlaced(q, va, was, m, unit, target, info)
  {
    hide RoundDown, BankAt, Landing;
  }

  lemma VisitLeafKeeps(cfg: Config, q: Request, before: Forest, w: Walk, s: Slot, pageSize: nat, size: nat)
    requires s in w.nodes && s.level < 5
    ensures var r := VisitLeaf(cfg, q, before, w, s, pageSize, size);
      && r.nodes.Keys == w.nodes.Keys && Evolves(w.nodes, r.nodes, None)
      && r.nodes[s] == w.nodes[s].(ps64 := r.nodes[s].ps64, pending := r.nodes[s].pending)
  {
    hide Ps64Visit, PlainVisit, WasGroup;
    Ps64VisitEvolves(cfg, w, s, WasGroup(cfg, before, s), size);
  }

  lemma PteStepShape(cfg: Config, q: Request, w: Walk, va: nat, size: nat, target: nat, info: PageInfo)
    requires Ready(cfg, q, w.nodes, va) && Builds(q)
    requires TableSlot(q.tree, 1, va) in w.nodes && (PlannedKind(w.nodes, q, va).Pte4KB? || PlannedKind(w.nodes, q, va).Pte64KB?)
    ensures var v := PteStep(cfg, q, w, va, size, BankAt(q, va), target, info); var leaf := PlannedLeaf(cfg, w.nodes, q, va);
      && v.leaf == Some(leaf) && leaf.level == 0 && v.pageSize == PageSizeAt(PlannedKind(w.nodes, q, va)) && v.target == target
      && v.w.nodes.Keys == w.nodes.Keys + {leaf}
      && (forall s :: s in w.nodes ==> v.w.nodes[s].kind == w.nodes[s].kind)
      && LeafPlaced(q, va, NodeAt(w.nodes, leaf), v.w.nodes[leaf], v.pageSize, target, info)
  {
    hide VisitLeaf, LeafSlot, WellFormed, PlaceLeaf, LeafPlaced, BankAt;
    var kind := PlannedKind(w.nodes, q, va);
    var s := LeafSlot(cfg, q.tree, kind, va);
    LeafSlotLevel(cfg, q.tree, kind, va);
    PlacedLeafShape(cfg, q, w, s, Page, PteSize(kind), va, target, info);
    var w1 := PlaceLeaf(q, w, s, Page, PteSize(kind), BankAt(q, va), target, info);
    VisitLeafKeeps(cfg, q, w.nodes, w1, s, PteSize(kind), size);
    PteStepFacts(cfg, q, w, va, size, BankAt(q, va), target, info);
    var v := PteStep(cfg, q, w, va, size, BankAt(q, va), target, info);
    KeepsPlace(q, va, NodeAt(w.nodes, s), w1.nodes[s], v.w.nodes[s], PteSize(kind), target, info);
    KindsStay(cfg, q, w, va, v);
  }

  lemma KindsStay(cfg: Config, q: Request, w: Walk, va: nat, v: Visit)
    requires Visited(cfg, q, w, va, v)
    ensures forall s :: s in w.nodes ==> s in v.w.nodes && v.w.nodes[s].kind == w.nodes[s].kind
  {
    hide WellFormed, LeafOf, LeafSize, GrowsOnPath;
  }

  lemma LargeStepShape(cfg: Config, q: Request, w: Walk, va: nat, target: nat, info: PageInfo)
    requires Builds(q)
    ensures var s := TableSlot(q.tree, 1, va); var v := LargePageStep(cfg, q, w, s, BankAt(q, va), target, info);
      && v.leaf == Some(s) && v.pageSize == PAGE_2MB && v.target == (if q.mapping then Landing(PAGE_2MB, target) else target)
      && v.w.nodes.Keys == w.nodes.Keys + {s}
      && (s in w.nodes || v.w.nodes[s].kind.Page2MB?)
      && (s in w.nodes ==> v.w.nodes[s].kind == w.nodes[s].kind)
      && LeafPlaced(q, va, NodeAt(w.nodes, s), v.w.nodes[s], PAGE_2MB, target, info)
  {
    hide PhysicalMemory.Reserve, RoundDown, BankAt, Realign, Span, PlainVisit;
    MappingBank(q, va);
  }

  lemma PdeStepShape(cfg: Config, q: Request, w: Walk, va: nat, size: nat, target: nat, info: PageInfo)
    requires Ready(cfg, q, w.nodes, va) && Builds(q) && TableSlot(q.tree, 2, va) in w.nodes
    ensures var v := PdeStep(cfg, q, w, va, size, BankAt(q, va), target, info);
      var leaf := PlannedLeaf(cfg, w.nodes, q, va); var kind := PlannedKind(w.nodes, q, va); var p := TableSlot(q.tree, 1, va);
      && v.leaf == Some(leaf) && leaf in v.w.nodes && v.pageSize == PageSizeAt(kind)
      && v.target == (if q.mapping then Landing(v.pageSize, target) else target)
      && v.w.nodes.Keys == w.nodes.Keys + {p, leaf} && v.w.nodes[p].kind == kind
      && LeafPlaced(q, va, NodeAt(w.nodes, leaf), v.w.nodes[leaf], v.pageSize, target, info)
  {
    hide PteStep, PlainVisit, LargePageStep, AddTable, WellFormed, Span, LeafPlaced, LeafSlot, BankAt, Landing;
    var p := TableSlot(q.tree, 1, va);
    var leaf := PlannedLeaf(cfg, w.nodes, q, va);
    ChildIsTableSlot(cfg, q.tree, 1, va);
    TableAbove(cfg, w.nodes, TableSlot(q.tree, 2, va));
    if p in w.nodes { PdeKind(cfg, w.nodes, p); }
    SmallLanding(q, target);
    if p in w.nodes && !w.nodes[p].kind.Page2MB? {
      PteStepShape(cfg, q, PlainVisit(cfg, w, p, q.mapping), va, size, target, info);
      assert {p, leaf} + w.nodes.Keys == {leaf} + w.nodes.Keys;
    } else if p in w.nodes && !q.mapping {
      OldLargeStays(q, va, w.nodes[p], target, info);
      assert {p, leaf} + w.nodes.Keys == w.nodes.Keys;
    } else if p in w.nodes || q.pageSize == PAGE_2MB {
      LargeStepShape(cfg, q, w, va, target, info);
      assert {p, leaf} == {p};
    } else {
      var w1 := AddTable(w, p, PteKind(q.pageSize));
      AddTableFacts(cfg, w, va, p, PteKind(q.pageSize));
      var w2 := PlainVisit(cfg, w1, p, true);
      GrownStaysReady(cfg, q, va, w.nodes, w2.nodes);
      PteStepShape(cfg, q, w2, va, size, target, info);
      LeafSlotParent(cfg, q.tree, PteKind(q.pageSize), va);
      LeafSlotLevel(cfg, q.tree, PteKind(q.pageSize), va);
      NoLeafYet(cfg, q, w.nodes, w2.nodes, va, leaf);
      assert w.nodes.Keys + {p} + {leaf} == w.nodes.Keys + {p, leaf};
    }
  }

  lemma SmallLanding(q: Request, target: nat)
    ensures Landing(PAGE_4KB, target) == target && Landing(PAGE_64KB, target) == target
  {
  }

  lemma OldLargeStays(q: Request, va: nat, n: Node, target: nat, info: PageInfo)
    requires q.pageSize > 0 && !q.mapping
    ensures LeafPlaced(q, va, Some(n), n, PAGE_2MB, target, info)
  {
  }

  lemma NoLeafYet(cfg: Config, q: Request, a: Forest, b: Forest, va: nat, leaf: Slot)
    requires b.Keys == a.Keys + {TableSlot(q.tree, 1, va)} && TableSlot(q.tree, 1, va) !in a && leaf.level == 0
    requires Evolves(a, b, None) && WellFormed(cfg, a) && ValidConfig(cfg) && Parent(leaf) == TableSlot(q.tree, 1, va)
    ensures NodeAt(b, leaf) == NodeAt(a, leaf) == None
  {
    assert leaf in a ==> Placed(cfg, a, leaf);
  }

  lemma {:induction false} TablesDownShape(cfg: Config, q: Request, w: Walk, va: nat, level: nat)
    requires Ready(cfg, q, w.nodes, va) && Builds(q) && 1 <= level < cfg.levels && TableSlot(q.tree, level + 1, va) in w.nodes
    ensures var r := TablesDown(cfg, q, w, va, level).0;
      forall s :: s in r.nodes <==> s in w.nodes || (2 <= s.level <= level && s == TableSlot(q.tree, s.level, va))
    decreases level
  {
    hide AddTable, PlainVisit, Grown, WellFormed, Span, Index;
    if level >= 2 {
      var s := TableSlot(q.tree, level, va);
      ChildIsTableSlot(cfg, q.tree, level, va);
      TableAbove(cfg, w.nodes, TableSlot(q.tree, level + 1, va));
      GrownReflexive(cfg, q.tree, va, w.nodes);
      var w1 := if s in w.nodes then w else AddTable(w, s, TableKind(level));
      if s !in w.nodes { AddTableFacts(cfg, w, va, s, TableKind(level)); }
      assert w1.nodes.Keys == w.nodes.Keys + {s};
      var w2 := PlainVisit(cfg, w1, s, s !in w.nodes || q.mapping);
      GrownStaysReady(cfg, q, va, w.nodes, w2.nodes);
      TablesDownShape(cfg, q, w2, va, level - 1);
    }
  }

  lemma PageVisitShape(cfg: Config, q: Request, w: Walk, va: nat, size: nat, target: nat, info: PageInfo)
    requires Ready(cfg, q, w.nodes, va) && Builds(q)
    ensures Shaped(cfg, q, w, va, target, info, PageVisit(cfg, q, w, va, size, target, info))
  {
    hide PdeStep, TablesDown, Grown, WellFormed, Span, LeafPlaced, LeafSlot, BankAt, Landing;
    RootIsTableSlot(cfg, q.tree, va);
    TablesDownFacts(cfg, q, w, va, cfg.levels - 1);
    TablesDownShape(cfg, q, w, va, cfg.levels - 1);
    var (w1, found) := TablesDown(cfg, q, w, va, cfg.levels - 1);
    GrownStaysReady(cfg, q, va, w.nodes, w1.nodes);
    PdeStepShape(cfg, q, w1, va, size, target, info);
    SamePlan(cfg, q, w.nodes, w1.nodes, va);
    PathSplit(cfg, q, w.nodes, w1.nodes, PageVisit(cfg, q, w, va, size, target, info).w.nodes, va);
    LeafBefore(cfg, q, w.nodes, w1.nodes, va, target, info, PageVisit(cfg, q, w, va, size, target, info));
  }

  lemma SamePlan(cfg: Config, q: Request, a: Forest, b: Forest, va: nat)
    requires cfg.levels <= 5 && Grown(cfg, q.tree, va, a, b, None)
    requires forall s :: s in b && s !in a ==> s.level >= 2
    ensures PlannedKind(b, q, va) == PlannedKind(a, q, va) && PlannedLeaf(cfg, b, q, va) == PlannedLeaf(cfg, a, q, va)
  {
    hide WellFormed, LeafSlot, GrowsOnPath;
  }

  lemma PathSplit(cfg: Config, q: Request, a: Forest, b: Forest, c: Forest, va: nat)
    requires ValidConfig(cfg)
    requires forall s :: s in b <==> s in a || (2 <= s.level <= cfg.levels - 1 && s == TableSlot(q.tree, s.level, va))
    requires var leaf := PlannedLeaf(cfg, a, q, va); c.Keys == b.Keys + {TableSlot(q.tree, 1, va), leaf}
    ensures var leaf := PlannedLeaf(cfg, a, q, va);
      forall s :: s in c <==>
        s in a || s == leaf || OnPath(cfg, q.tree, va, if PlannedKind(a, q, va).Page2MB? then 2 else 1, s)
  {
    hide Span, LeafSlot;
    var leaf := PlannedLeaf(cfg, a, q, va);
    forall s ensures s in c <==> s in b || s == leaf || s == TableSlot(q.tree, 1, va) {}
  }

  lemma LeafBefore(cfg: Config, q: Request, a: Forest, b: Forest, va: nat, target: nat, info: PageInfo, v: Visit)
    requires q.pageSize > 0 && cfg.levels <= 5 && Grown(cfg, q.tree, va, a, b, None)
    requires forall s :: s in b && s !in a ==> s.level >= 2
    requires PlannedLeaf(cfg, a, q, va) in v.w.nodes && v.pageSize > 0
    requires var leaf := PlannedLeaf(cfg, a, q, va); LeafPlaced(q, va, NodeAt(b, leaf), v.w.nodes[leaf], v.pageSize, target, info)
    ensures var leaf := PlannedLeaf(cfg, a, q, va); LeafPlaced(q, va, NodeAt(a, leaf), v.w.nodes[leaf], v.pageSize, target, info)
  {
    hide WellFormed, LeafSlot, GrowsOnPath, BankAt, Landing, RoundDown;
    if !PlannedKind(a, q, va).Page2MB? { LeafSlotLevel(cfg, q.tree, PlannedKind(a, q, va), va); }
  }
}
