/** A page visit leaves a well-formed forest, touches one path, and ends at the leaf the simple lookup finds. */
module TreeFacts {
  import opened Wrappers
  import opened Arithmetic
  import opened PageTables
  import PhysicalMemory
  import opened WalkModel

  /** Nodes are never rebuilt, and only `leaf` may have been pointed elsewhere. */
  ghost predicate Evolves(nodes: Forest, nodes': Forest, leaf: Option<Slot>) {
    forall s :: s in nodes ==>
      && s in nodes'
      && nodes'[s].kind == nodes[s].kind && nodes'[s].attributes == nodes[s].attributes
      && nodes'[s].reserved == nodes[s].reserved
      && (Some(s) != leaf ==> nodes'[s].phys == nodes[s].phys && nodes'[s].bank == nodes[s].bank)
  }

  /** Every new node is `leaf` or a table on the path to `va`. */
  ghost predicate GrowsOnPath(tree: nat, va: nat, nodes: Forest, nodes': Forest, leaf: Option<Slot>) {
    forall s :: s in nodes' && s !in nodes ==>
      Some(s) == leaf || (1 <= s.level <= 4 && s == TableSlot(tree, s.level, va) && IsTable(nodes'[s].kind))
  }

  ghost predicate LeafFits(nodes: Forest, leaf: Option<Slot>) {
    leaf.Some? && leaf.value in nodes ==> !IsTable(nodes[leaf.value].kind)
  }

  /** What any part of a page visit may do to the forest. */
  ghost predicate Grown(cfg: Config, tree: nat, va: nat, nodes: Forest, nodes': Forest, leaf: Option<Slot>) {
    WellFormed(cfg, nodes') && Evolves(nodes, nodes', leaf) && GrowsOnPath(tree, va, nodes, nodes', leaf)
  }

  lemma GrownTransitive(cfg: Config, tree: nat, va: nat, a: Forest, b: Forest, c: Forest, leaf: Option<Slot>)
    requires Grown(cfg, tree, va, a, b, None) && Grown(cfg, tree, va, b, c, leaf)
    ensures Grown(cfg, tree, va, a, c, leaf)
  {
    hide WellFormed;
    forall s | s in c && s !in a
      ensures Some(s) == leaf || (1 <= s.level <= 4 && s == TableSlot(tree, s.level, va) && IsTable(c[s].kind)) {
      if s in b { assert c[s].kind == b[s].kind; }
    }
  }

  lemma EvolvesKeepsPlaced(cfg: Config, nodes: Forest, nodes': Forest, leaf: Option<Slot>)
    requires WellFormed(cfg, nodes) && Evolves(nodes, nodes', leaf) && LeafFits(nodes, leaf)
    ensures forall s :: s in nodes ==> Placed(cfg, nodes', s)
  {
    forall s | s in nodes ensures Placed(cfg, nodes', s) {
      assert Placed(cfg, nodes, s);
    }
  }

  lemma AllPlaced(cfg: Config, nodes: Forest)
    requires forall s :: s in nodes ==> Placed(cfg, nodes, s)
    ensures WellFormed(cfg, nodes)
  {
  }

  lemma AddedKeepsWellFormed(cfg: Config, nodes: Forest, s: Slot, n: Node)
    requires WellFormed(cfg, nodes) && s !in nodes
    requires s.level < cfg.levels && KindFits(cfg, s, n.kind)
    requires Parent(s) in nodes && IsTable(nodes[Parent(s)].kind) && IndexFits(cfg, nodes[Parent(s)].kind, s.num % 512)
    requires IsTable(n.kind) ==> n.bank == nodes[Parent(s)].bank
    ensures WellFormed(cfg, nodes[s := n])
  {
    var nodes' := nodes[s := n];
    EvolvesKeepsPlaced(cfg, nodes, nodes', None);
    assert Placed(cfg, nodes', s);
  }

  // ---- the PS64 passes only change marks ----

  lemma UpgradeEvolves(cfg: Config, w: Walk, s: Slot)
    requires s in w.nodes && s.level < 5
    ensures Evolves(w.nodes, Upgrade(cfg, w, s).nodes, None)
    ensures Upgrade(cfg, w, s).mem == w.mem && Upgrade(cfg, w, s).entries == w.entries
  {
    hide EntryOf, EntryAddress;
  }

  lemma DowngradeEvolves(cfg: Config, w: Walk, s: Slot)
    requires s in w.nodes && s.level < 5
    ensures Evolves(w.nodes, Downgrade(cfg, w, s).nodes, None)
    ensures Downgrade(cfg, w, s).mem == w.mem && Downgrade(cfg, w, s).entries == w.entries
  {
    hide EntryOf, EntryAddress;
  }

  lemma {:induction false} UpgradeFromEvolves(cfg: Config, w: Walk, s: Slot, i: nat)
    requires i <= 16
    ensures Evolves(w.nodes, UpgradeFrom(cfg, w, s, i).nodes, None)
    ensures UpgradeFrom(cfg, w, s, i).mem == w.mem && UpgradeFrom(cfg, w, s, i).entries == w.entries
    decreases 16 - i
  {
    hide Upgrade, GroupBase;
    if i < 16 {
      if Member(s, i) in w.nodes { UpgradeEvolves(cfg, w, Member(s, i)); }
      UpgradeFromEvolves(cfg, if Member(s, i) in w.nodes then Upgrade(cfg, w, Member(s, i)) else w, s, i + 1);
    }
  }

  lemma {:induction false} DowngradeFromEvolves(cfg: Config, w: Walk, s: Slot, i: nat)
    requires i <= 16
    ensures Evolves(w.nodes, DowngradeFrom(cfg, w, s, i).nodes, None)
    ensures DowngradeFrom(cfg, w, s, i).mem == w.mem && DowngradeFrom(cfg, w, s, i).entries == w.entries
    decreases 16 - i
  {
    hide Downgrade, GroupBase;
    if i < 16 {
      if Member(s, i) in w.nodes { DowngradeEvolves(cfg, w, Member(s, i)); }
      DowngradeFromEvolves(cfg, if Member(s, i) in w.nodes then Downgrade(cfg, w, Member(s, i)) else w, s, i + 1);
    }
  }

  lemma Ps64VisitEvolves(cfg: Config, w: Walk, s: Slot, wasGroup: bool, size: nat)
    requires s in w.nodes && s.level < 5
    ensures Evolves(w.nodes, Ps64Visit(cfg, w, s, wasGroup, size).nodes, None)
    ensures Ps64Visit(cfg, w, s, wasGroup, size).mem == w.mem
    ensures Ps64Visit(cfg, w, s, wasGroup, size).entries == w.entries
  {
    hide UpgradeFrom, DowngradeFrom, GroupComplete, Speculate;
    UpgradeFromEvolves(cfg, w, s, 0);
    DowngradeFromEvolves(cfg, w, s, 0);
    SpeculateEvolves(cfg, w, s, size);
  }

  lemma SpeculateEvolves(cfg: Config, w: Walk, s: Slot, size: nat)
    requires s in w.nodes && s.level < 5
    ensures Evolves(w.nodes, Speculate(cfg, w, s, size).nodes, None)
    ensures Speculate(cfg, w, s, size).mem == w.mem && Speculate(cfg, w, s, size).entries == w.entries
  {
    hide WillComplete, EntryOf, EntryAddress;
  }

  // ---- down the path ----

  /** A walk's starting point: the tree exists and the request has a page size. */
  ghost predicate Sound(cfg: Config, q: Request, nodes: Forest) {
    ValidConfig(cfg) && WellFormed(cfg, nodes) && Root(cfg, q.tree) in nodes && q.pageSize > 0
  }

  ghost predicate Ready(cfg: Config, q: Request, nodes: Forest, va: nat) {
    Sound(cfg, q, nodes) && InRange(cfg, va)
  }

  /** A new table on the path, in a free slot of the table above it. */
  lemma AddTableFacts(cfg: Config, w: Walk, va: nat, s: Slot, kind: Kind)
    requires WellFormed(cfg, w.nodes) && s !in w.nodes && 1 <= s.level < cfg.levels <= 5 && s == TableSlot(s.tree, s.level, va)
    requires IsTable(kind) && KindFits(cfg, s, kind)
    requires Parent(s) in w.nodes && IsTable(w.nodes[Parent(s)].kind) && !w.nodes[Parent(s)].kind.Pte64KB?
    ensures var r := AddTable(w, s, kind);
      && Grown(cfg, s.tree, va, w.nodes, r.nodes, None) && r.nodes.Keys == w.nodes.Keys + {s}
      && r.nodes[s].kind == kind && r.entries == w.entries
  {
    hide PhysicalMemory.Reserve, WellFormed;
    var r := AddTable(w, s, kind);
    AddedKeepsWellFormed(cfg, w.nodes, s, r.nodes[s]);
  }

  lemma {:induction false} TablesDownFacts(cfg: Config, q: Request, w: Walk, va: nat, level: nat)
    requires Ready(cfg, q, w.nodes, va) && 1 <= level < cfg.levels
    requires TableSlot(q.tree, level + 1, va) in w.nodes
    ensures var (r, found) := TablesDown(cfg, q, w, va, level);
      && Grown(cfg, q.tree, va, w.nodes, r.nodes, None)
      && (forall s :: s in r.nodes && s !in w.nodes ==> s.level >= 2)
      && (found ==> TableSlot(q.tree, 2, va) in r.nodes)
      && (!found ==> q.mode.Expect? && TableSlot(q.tree, 1, va) !in w.nodes)
      && r.entries == w.entries
    decreases level
  {
    hide AddTable, PlainVisit, Grown, WellFormed, Span;
    GrownReflexive(cfg, q.tree, va, w.nodes);
    if level >= 2 {
      var s := TableSlot(q.tree, level, va);
      ChildIsTableSlot(cfg, q.tree, level, va);
      TableAbove(cfg, w.nodes, TableSlot(q.tree, level + 1, va));
      if s in w.nodes || !q.mode.Expect? {
        var w1 := if s in w.nodes then w else AddTable(w, s, TableKind(level));
        if s !in w.nodes { AddTableFacts(cfg, w, va, s, TableKind(level)); }
        var w2 := PlainVisit(cfg, w1, s, s !in w.nodes || q.mapping);
        GrownStaysReady(cfg, q, va, w.nodes, w2.nodes);
        TablesDownFacts(cfg, q, w2, va, level - 1);
        GrownTransitive(cfg, q.tree, va, w.nodes, w2.nodes, TablesDown(cfg, q, w2, va, level - 1).0.nodes, None);
      } else {
        HolesReachDown(cfg, q, w.nodes, va, level);
      }
    }
  }

  lemma GrownReflexive(cfg: Config, tree: nat, va: nat, nodes: Forest)
    requires WellFormed(cfg, nodes)
    ensures forall leaf :: Grown(cfg, tree, va, nodes, nodes, leaf)
  {
  }

  lemma GrownStaysReady(cfg: Config, q: Request, va: nat, nodes: Forest, nodes': Forest)
    requires Ready(cfg, q, nodes, va) && Grown(cfg, q.tree, va, nodes, nodes', None)
    ensures Ready(cfg, q, nodes', va)
    ensures nodes.Keys <= nodes'.Keys
  {
  }

  /** A node above the leaves at level 2 or more is a table, and no PTE. */
  lemma TableAbove(cfg: Config, nodes: Forest, s: Slot)
    requires WellFormed(cfg, nodes) && s in nodes && 2 <= s.level
    ensures nodes[s].kind == TableKind(s.level)
  {
    assert Placed(cfg, nodes, s);
  }

  lemma {:induction false} HolesReachDown(cfg: Config, q: Request, nodes: Forest, va: nat, level: nat)
    requires Ready(cfg, q, nodes, va) && 1 <= level < cfg.levels
    requires TableSlot(q.tree, level, va) !in nodes
    ensures TableSlot(q.tree, 1, va) !in nodes
    decreases level
  {
    if level > 1 {
      var s := TableSlot(q.tree, level - 1, va);
      ChildIsTableSlot(cfg, q.tree, level - 1, va);
      assert s in nodes ==> Placed(cfg, nodes, s);
      HolesReachDown(cfg, q, nodes, va, level - 1);
    }
  }

  /** What a visit establishes, given that everything above the PDE entry is in place. */
  ghost predicate Visited(cfg: Config, q: Request, w: Walk, va: nat, v: Visit) {
    && Grown(cfg, q.tree, va, w.nodes, v.w.nodes, v.leaf) && LeafFits(v.w.nodes, v.leaf)
    && v.w.entries == w.entries
    && (v.leaf.Some? ==> LeafOf(cfg, v.w.nodes, q.tree, va) == v.leaf && v.pageSize == LeafSize(v.w.nodes, v.leaf.value))
    && (v.leaf.None? ==> q.mode.Expect? && LeafOf(cfg, w.nodes, q.tree, va) == None)
  }

  /** Where a leaf may be put: it is there already with the right kind, or the table above has the slot for it. */
  ghost predicate LeafBelongs(cfg: Config, nodes: Forest, s: Slot, kind: Kind) {
    && s.level < cfg.levels && KindFits(cfg, s, kind) && !IsTable(kind)
    && Parent(s) in nodes && IsTable(nodes[Parent(s)].kind) && IndexFits(cfg, nodes[Parent(s)].kind, s.num % 512)
    && (s in nodes ==> nodes[s].kind == kind)
  }

  lemma PlaceLeafFacts(cfg: Config, q: Request, w: Walk, s: Slot, kind: Kind, pageSize: nat, bank: nat, target: nat, info: PageInfo)
    requires WellFormed(cfg, w.nodes) && LeafBelongs(cfg, w.nodes, s, kind) && pageSize > 0
    ensures var r := PlaceLeaf(q, w, s, kind, pageSize, bank, target, info);
      && WellFormed(cfg, r.nodes) && Evolves(w.nodes, r.nodes, Some(s))
      && r.nodes[s].kind == kind && r.entries == w.entries
      && (s in w.nodes ==> r.nodes[s].ps64 == w.nodes[s].ps64)
      && (forall x :: x in w.nodes && x != s ==> r.nodes[x] == w.nodes[x])
  {
    hide PhysicalMemory.Reserve, WellFormed, IndexFits, RoundDown;
    var r := PlaceLeaf(q, w, s, kind, pageSize, bank, target, info);
    assert r.nodes == w.nodes[s := r.nodes[s]];
    assert r.nodes[s].kind == kind;
    if s in w.nodes {
      EvolvesKeepsPlaced(cfg, w.nodes, r.nodes, Some(s));
      AllPlaced(cfg, r.nodes);
    } else {
      AddedKeepsWellFormed(cfg, w.nodes, s, r.nodes[s]);
    }
  }

  lemma VisitLeafFacts(cfg: Config, q: Request, before: Forest, w: Walk, s: Slot, pageSize: nat, size: nat)
    requires WellFormed(cfg, w.nodes) && s in w.nodes && s.level < 5
    ensures var r := VisitLeaf(cfg, q, before, w, s, pageSize, size);
      WellFormed(cfg, r.nodes) && Evolves(w.nodes, r.nodes, None) && r.mem == w.mem && r.entries == w.entries
  {
    hide Ps64Visit, PlainVisit, WasGroup, KindFits, Placed, IndexFits;
    Ps64VisitEvolves(cfg, w, s, WasGroup(cfg, before, s), size);
    var r := VisitLeaf(cfg, q, before, w, s, pageSize, size);
    assert Evolves(w.nodes, r.nodes, None);
    EvolvesKeepsPlaced(cfg, w.nodes, r.nodes, None);
  }

  lemma PteStepFacts(cfg: Config, q: Request, w: Walk, va: nat, size: nat, bank: nat, target: nat, info: PageInfo)
    requires Ready(cfg, q, w.nodes, va)
    requires TableSlot(q.tree, 1, va) in w.nodes && IsTable(w.nodes[TableSlot(q.tree, 1, va)].kind)
    ensures Visited(cfg, q, w, va, PteStep(cfg, q, w, va, size, bank, target, info))
  {
    hide VisitLeaf, PlaceLeaf, Index, LeafSlot, WellFormed, Placed, Evolves, Grown;
    var p := TableSlot(q.tree, 1, va);
    var kind := w.nodes[p].kind;
    var pageSize := PteSize(kind);
    var s := LeafSlot(cfg, q.tree, kind, va);
    LeafSlotParent(cfg, q.tree, kind, va);
    IndexBound(cfg, kind, va);
    LeafSlotLevel(cfg, q.tree, kind, va);
    GrownReflexive(cfg, q.tree, va, w.nodes);
    if s in w.nodes { LeafUnderTable(cfg, w.nodes, s); }
    var v := PteStep(cfg, q, w, va, size, bank, target, info);
    if v.leaf.Some? {
      PlaceLeafFacts(cfg, q, w, s, Page, pageSize, bank, target, info);
      var w1 := PlaceLeaf(q, w, s, Page, pageSize, bank, target, info);
      VisitLeafFacts(cfg, q, w.nodes, w1, s, pageSize, size);
      PlacedThenMarked(cfg, q.tree, va, w.nodes, w1.nodes, v.w.nodes, s);
    }
  }

  lemma PlacedThenMarked(cfg: Config, tree: nat, va: nat, a: Forest, b: Forest, c: Forest, s: Slot)
    requires Evolves(a, b, Some(s)) && b.Keys == a.Keys + {s} && !IsTable(b[s].kind)
    requires WellFormed(cfg, c) && Evolves(b, c, None) && c.Keys == b.Keys
    ensures Grown(cfg, tree, va, a, c, Some(s)) && LeafFits(c, Some(s))
    ensures forall x :: x in a ==> x in c && c[x].kind == a[x].kind
  {
    hide WellFormed;
  }

  lemma LeafSlotLevel(cfg: Config, tree: nat, kind: Kind, va: nat)
    ensures LeafSlot(cfg, tree, kind, va).level == 0 && LeafSlot(cfg, tree, kind, va).tree == tree
  {
  }

  lemma LeafUnderTable(cfg: Config, nodes: Forest, s: Slot)
    requires WellFormed(cfg, nodes) && s.level == 0 && s in nodes
    ensures nodes[s].kind.Page?
  {
    assert Placed(cfg, nodes, s);
  }

  lemma LargePageStepFacts(cfg: Config, q: Request, w: Walk, va: nat, bank: nat, target: nat, info: PageInfo)
    requires Ready(cfg, q, w.nodes, va) && TableSlot(q.tree, 2, va) in w.nodes
    requires var s := TableSlot(q.tree, 1, va); s in w.nodes ==> w.nodes[s].kind.Page2MB?
    requires !q.mode.Expect? || TableSlot(q.tree, 1, va) in w.nodes
    ensures Visited(cfg, q, w, va, LargePageStep(cfg, q, w, TableSlot(q.tree, 1, va), bank, target, info))
  {
    hide PlaceLeaf, PlainVisit, WellFormed, LeafSlot, Realign;
    var s := TableSlot(q.tree, 1, va);
    ChildIsTableSlot(cfg, q.tree, 1, va);
    TableAbove(cfg, w.nodes, TableSlot(q.tree, 2, va));
    PlaceLeafFacts(cfg, q, w, s, Page2MB, PAGE_2MB, bank, if q.mapping then Realign(target) else target, info);
  }

  lemma KindAtPde(cfg: Config, nodes: Forest, s: Slot)
    requires WellFormed(cfg, nodes) && s.level == 1 && s in nodes
    ensures IsTable(nodes[s].kind) || nodes[s].kind.Page2MB?
  {
    assert Placed(cfg, nodes, s);
  }

  lemma PdeStepFacts(cfg: Config, q: Request, w: Walk, va: nat, size: nat, bank: nat, target: nat, info: PageInfo)
    requires Ready(cfg, q, w.nodes, va) && TableSlot(q.tree, 2, va) in w.nodes
    ensures Visited(cfg, q, w, va, PdeStep(cfg, q, w, va, size, bank, target, info))
  {
    hide PteStep, PlainVisit, LargePageStep, AddTable, WellFormed, Grown, Span;
    var s := TableSlot(q.tree, 1, va);
    ChildIsTableSlot(cfg, q.tree, 1, va);
    TableAbove(cfg, w.nodes, TableSlot(q.tree, 2, va));
    GrownReflexive(cfg, q.tree, va, w.nodes);
    if s in w.nodes { KindAtPde(cfg, w.nodes, s); }
    if s in w.nodes && !w.nodes[s].kind.Page2MB? {
      PteStepFacts(cfg, q, PlainVisit(cfg, w, s, q.mapping), va, size, bank, target, info);
    } else if (s in w.nodes && q.mapping) || (s !in w.nodes && !q.mode.Expect? && q.pageSize == PAGE_2MB) {
      LargePageStepFacts(cfg, q, w, va, bank, target, info);
    } else if s !in w.nodes && !q.mode.Expect? {
      var w1 := AddTable(w, s, PteKind(q.pageSize));
      AddTableFacts(cfg, w, va, s, PteKind(q.pageSize));
      var w2 := PlainVisit(cfg, w1, s, true);
      GrownStaysReady(cfg, q, va, w.nodes, w2.nodes);
      PteStepFacts(cfg, q, w2, va, size, bank, target, info);
      GrownTransitive(cfg, q.tree, va, w.nodes, w2.nodes, PteStep(cfg, q, w2, va, size, bank, target, info).w.nodes,
                      PteStep(cfg, q, w2, va, size, bank, target, info).leaf);
    }
  }

  lemma PageVisitFacts(cfg: Config, q: Request, w: Walk, va: nat, size: nat, target: nat, info: PageInfo)
    requires Ready(cfg, q, w.nodes, va)
    ensures Visited(cfg, q, w, va, PageVisit(cfg, q, w, va, size, target, info))
  {
    hide PdeStep, TablesDown, Grown, WellFormed, Span;
    RootIsTableSlot(cfg, q.tree, va);
    TablesDownFacts(cfg, q, w, va, cfg.levels - 1);
    var (w1, found) := TablesDown(cfg, q, w, va, cfg.levels - 1);
    if found {
      GrownStaysReady(cfg, q, va, w.nodes, w1.nodes);
      PdeStepFacts(cfg, q, w1, va, size, BankAt(q, va), target, info);
      var v := PdeStep(cfg, q, w1, va, size, BankAt(q, va), target, info);
      GrownTransitive(cfg, q.tree, va, w.nodes, w1.nodes, v.w.nodes, v.leaf);
      if v.leaf.None? { NoLeafBelow(cfg, q, w.nodes, w1.nodes, va); }
    }
  }

  /** New tables at level 2 and above give no address a leaf. */
  lemma NoLeafBelow(cfg: Config, q: Request, nodes: Forest, nodes': Forest, va: nat)
    requires Grown(cfg, q.tree, va, nodes, nodes', None)
    requires LeafOf(cfg, nodes', q.tree, va) == None
    ensures LeafOf(cfg, nodes, q.tree, va) == None
  {
    hide WellFormed;
    var s := TableSlot(q.tree, 1, va);
    if s in nodes { assert nodes'[s].kind == nodes[s].kind; }
  }
}
