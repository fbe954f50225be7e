/** The pages a walk reports are the pages the simple lookup finds in the tree it leaves. */
module WalkLookup {
  import opened Wrappers
  import opened Arithmetic
  import opened PageTables
  import opened WalkModel
  import opened TreeFacts
  import opened PhysicalMemory

  /** A stretch of physical memory. */
  datatype Run = Run(phys: nat, size: nat, local: bool)

  function Runs(entries: seq<PageInfo>): seq<Run> {
    seq(|entries|, i requires 0 <= i < |entries| => Run(entries[i].phys, entries[i].size, entries[i].local))
  }

  /** The reference: cut [va, va + size) at leaf-page boundaries and look each piece up, stopping at a hole. */
  function Pages(cfg: Config, nodes: Forest, tree: nat, va: nat, size: nat): seq<Run>
    decreases size
  {
    if size == 0 then []
    else match LeafOf(cfg, nodes, tree, va)
      case None => []
      case Some(s) =>
        var step := PageStep(LeafSize(nodes, s), va, size);
        [Run(nodes[s].phys + va % LeafSize(nodes, s), step, nodes[s].bank != 0)]
        + Pages(cfg, nodes, tree, va + step, size - step)
  }

  function TotalSize(runs: seq<Run>): nat {
    if runs == [] then 0 else runs[0].size + TotalSize(runs[1..])
  }

  /** Where byte j of the described stretch lives. */
  function ByteTarget(runs: seq<Run>, j: nat): Option<Target>
    decreases |runs|
  {
    if runs == [] then None
    else if j < runs[0].size then Some(Target(runs[0].phys + j, runs[0].local))
    else ByteTarget(runs[1..], j - runs[0].size)
  }

  ghost predicate Mapped(cfg: Config, nodes: Forest, tree: nat, va: nat, size: nat) {
    forall x :: va <= x < va + size ==> LeafOf(cfg, nodes, tree, x).Some?
  }

  // ---- pages ----

  lemma SameLeafSamePage(cfg: Config, nodes: Forest, tree: nat, x: nat, y: nat)
    requires WellFormed(cfg, nodes)
    requires LeafOf(cfg, nodes, tree, x).Some? && LeafOf(cfg, nodes, tree, y) == LeafOf(cfg, nodes, tree, x)
    ensures var size := LeafSize(nodes, LeafOf(cfg, nodes, tree, x).value); x / size == y / size
  {
    hide LeafSlot;
    var s := TableSlot(tree, 1, x);
    assert Placed(cfg, nodes, s) && Placed(cfg, nodes, TableSlot(tree, 1, y));
    LeafSlotLevel(cfg, tree, nodes[s].kind, x);
    LeafSlotLevel(cfg, tree, nodes[TableSlot(tree, 1, y)].kind, y);
    if IsTable(nodes[s].kind) {
      LeafSlotParent(cfg, tree, nodes[s].kind, x);
      LeafSlotParent(cfg, tree, nodes[TableSlot(tree, 1, y)].kind, y);
      LeafSlotInjective(cfg, tree, nodes[s].kind, x, y);
    }
  }

  /** The lookups of an address agree in two trees. */
  ghost predicate SameLookup(cfg: Config, a: Forest, b: Forest, tree: nat, x: nat) {
    && LeafOf(cfg, a, tree, x) == LeafOf(cfg, b, tree, x)
    && Translate(cfg, a, tree, x) == Translate(cfg, b, tree, x)
    && (LeafOf(cfg, a, tree, x).Some? ==>
          LeafSize(a, LeafOf(cfg, a, tree, x).value) == LeafSize(b, LeafOf(cfg, b, tree, x).value))
  }

  /** A visit changes the lookup of no address outside the page it ends at. */
  lemma VisitKeepsOthers(cfg: Config, q: Request, w: Walk, va: nat, v: Visit, tree: nat, x: nat)
    requires Visited(cfg, q, w, va, v) && Ready(cfg, q, w.nodes, va)
    requires LeafOf(cfg, v.w.nodes, tree, x) == None || LeafOf(cfg, v.w.nodes, tree, x) != v.leaf
    ensures SameLookup(cfg, w.nodes, v.w.nodes, tree, x)
  {
    hide LeafSlot, KindFits, IndexFits, WellFormed, GrowsOnPath, Evolves, PteSize, LeafSize;
    var p := TableSlot(tree, 1, x);
    assert Evolves(w.nodes, v.w.nodes, v.leaf);
    if p in w.nodes {
      NodeKept(w.nodes, v.w.nodes, v.leaf, p);
      if !w.nodes[p].kind.Page2MB? {
        var s := LeafSlot(cfg, tree, w.nodes[p].kind, x);
        LeafSlotLevel(cfg, tree, w.nodes[p].kind, x);
        PdeKind(cfg, w.nodes, p);
        LeafSlotParent(cfg, tree, w.nodes[p].kind, x);
        if s in w.nodes {
          NodeKept(w.nodes, v.w.nodes, v.leaf, s);
          LeafSizeKept(w.nodes, v.w.nodes, s);
        } else if s in v.w.nodes {
          NewNodes(q.tree, va, w.nodes, v.w.nodes, v.leaf, s);
        }
      } else {
        LeafSizeKept(w.nodes, v.w.nodes, p);
      }
    } else if p in v.w.nodes {
      NewNodes(q.tree, va, w.nodes, v.w.nodes, v.leaf, p);
      var s := LeafSlot(cfg, tree, v.w.nodes[p].kind, x);
      LeafSlotLevel(cfg, tree, v.w.nodes[p].kind, x);
      LeafSlotParent(cfg, tree, v.w.nodes[p].kind, x);
      if s in v.w.nodes {
        if s in w.nodes { ParentPresent(cfg, w.nodes, s); } else { NewNodes(q.tree, va, w.nodes, v.w.nodes, v.leaf, s); }
      }
    }
  }

  lemma NodeKept(nodes: Forest, nodes': Forest, leaf: Option<Slot>, s: Slot)
    requires Evolves(nodes, nodes', leaf) && s in nodes
    ensures s in nodes' && nodes'[s].kind == nodes[s].kind
    ensures Some(s) != leaf ==> nodes'[s].phys == nodes[s].phys && nodes'[s].bank == nodes[s].bank
  {
  }

  lemma LeafSizeKept(nodes: Forest, nodes': Forest, s: Slot)
    requires s.level == 1 || (Parent(s) in nodes && Parent(s) in nodes' && nodes'[Parent(s)].kind == nodes[Parent(s)].kind)
    ensures LeafSize(nodes', s) == LeafSize(nodes, s)
  {
  }

  lemma PdeKind(cfg: Config, nodes: Forest, s: Slot)
    requires WellFormed(cfg, nodes) && s in nodes && s.level == 1
    ensures nodes[s].kind.Pte4KB? || nodes[s].kind.Pte64KB? || nodes[s].kind.Page2MB?
  {
    assert Placed(cfg, nodes, s);
  }

  lemma ParentPresent(cfg: Config, nodes: Forest, s: Slot)
    requires WellFormed(cfg, nodes) && s in nodes && s.level == 0 && cfg.levels > 0
    ensures Parent(s) in nodes
  {
    assert Placed(cfg, nodes, s);
  }

  lemma NewNodes(tree: nat, va: nat, nodes: Forest, nodes': Forest, leaf: Option<Slot>, s: Slot)
    requires GrowsOnPath(tree, va, nodes, nodes', leaf) && s in nodes' && s !in nodes
    ensures Some(s) == leaf || (s.level >= 1 && IsTable(nodes'[s].kind))
  {
  }

  // ---- whole walks ----

  predicate FitsIn(cfg: Config, va: nat, size: nat) {
    cfg.levels <= 5 && va + size <= Span(cfg.levels)
  }

  /** One turn of the walk's loop: the visit, and the state the next turn starts from. */
  lemma TurnFacts(cfg: Config, q: Request, w: Walk, va: nat, size: nat, target: nat, info: PageInfo)
    requires Sound(cfg, q, w.nodes) && FitsIn(cfg, va, size) && size > 0
    ensures Ready(cfg, q, w.nodes, va)
    ensures var v := PageVisit(cfg, q, w, va, size, target, info);
      && Visited(cfg, q, w, va, v) && Sound(cfg, q, v.w.nodes)
      && (v.leaf.Some? ==> var step := PageStep(v.pageSize, va, size);
            && 0 < step <= size && FitsIn(cfg, va + step, size - step)
            && Report(v, va, size, BankAt(q, va)).nodes == v.w.nodes
            && (size > step ==> va + step == PageEnd(va, v.pageSize)))
  {
    hide PageVisit, WellFormed, LeafOf, LeafSize, GrowsOnPath, LeafFits;
    PageVisitFacts(cfg, q, w, va, size, target, info);
    var v := PageVisit(cfg, q, w, va, size, target, info);
    NodeKept(w.nodes, v.w.nodes, v.leaf, Root(cfg, q.tree));
    PageEndAfter(va, v.pageSize);
  }

  /** Later turns leave the pages of earlier turns, and every other tree, alone. */
  lemma {:induction false} WalkKeepsEarlier(cfg: Config, q: Request, w: Walk, va: nat, size: nat, target: nat, i: nat, tree: nat, x: nat)
    requires Sound(cfg, q, w.nodes) && FitsIn(cfg, va, size)
    requires LeafOf(cfg, w.nodes, tree, x).Some?
    requires var unit := LeafSize(w.nodes, LeafOf(cfg, w.nodes, tree, x).value); tree != q.tree || PageEnd(x, unit) <= va
    ensures SameLookup(cfg, w.nodes, WalkFrom(cfg, q, w, va, size, target, i).0.nodes, tree, x)
    decreases size
  {
    hide PageVisit, LeafSlot, WellFormed, Visited, LeafOf, LeafSize, Translate, BankAt, FitsIn, PageEnd;
    if size > 0 && !(q.mode.Clone? && i >= |q.infos|) {
      var v := PageVisit(cfg, q, w, va, size, target, InfoAt(q, i));
      TurnFacts(cfg, q, w, va, size, target, InfoAt(q, i));
      EarlierPageIsOther(cfg, q, w, va, v, tree, x);
      VisitKeepsOthers(cfg, q, w, va, v, tree, x);
      if v.leaf.Some? {
        var step := PageStep(v.pageSize, va, size);
        WalkKeepsEarlier(cfg, q, Report(v, va, size, BankAt(q, va)), va + step, size - step, NextTarget(v, va, size), i + 1, tree, x);
      }
    }
  }

  lemma EarlierPageIsOther(cfg: Config, q: Request, w: Walk, va: nat, v: Visit, tree: nat, x: nat)
    requires Visited(cfg, q, w, va, v) && WellFormed(cfg, w.nodes)
    requires LeafOf(cfg, w.nodes, tree, x).Some?
    requires var unit := LeafSize(w.nodes, LeafOf(cfg, w.nodes, tree, x).value); tree != q.tree || PageEnd(x, unit) <= va
    ensures LeafOf(cfg, v.w.nodes, tree, x) == LeafOf(cfg, w.nodes, tree, x) != v.leaf
  {
    hide LeafSlot, WellFormed, GrowsOnPath, PteSize;
    var s := LeafOf(cfg, w.nodes, tree, x).value;
    LeafKept(cfg, w.nodes, v.w.nodes, v.leaf, tree, x);
    LeafTree(cfg, v.w.nodes, tree, x);
    if v.leaf.Some? { LeafTree(cfg, v.w.nodes, q.tree, va); }
    if v.leaf == Some(s) {
      SameLeafSamePage(cfg, v.w.nodes, tree, x, va);
      PageEndAfter(va, LeafSize(v.w.nodes, s));
    }
  }

  lemma LeafTree(cfg: Config, nodes: Forest, tree: nat, x: nat)
    ensures LeafOf(cfg, nodes, tree, x).Some? ==> LeafOf(cfg, nodes, tree, x).value.tree == tree
  {
  }

  /** A leaf, once there, stays the leaf of its addresses. */
  lemma LeafKept(cfg: Config, nodes: Forest, nodes': Forest, leaf: Option<Slot>, tree: nat, x: nat)
    requires WellFormed(cfg, nodes) && Evolves(nodes, nodes', leaf) && LeafOf(cfg, nodes, tree, x).Some?
    ensures LeafOf(cfg, nodes', tree, x) == LeafOf(cfg, nodes, tree, x)
    ensures var s := LeafOf(cfg, nodes, tree, x).value; LeafSize(nodes', s) == LeafSize(nodes, s)
  {
    hide LeafSlot, WellFormed;
    var p := TableSlot(tree, 1, x);
    PdeKind(cfg, nodes, p);
    LeafSlotParent(cfg, tree, nodes[p].kind, x);
  }

  lemma RunsAppend(entries: seq<PageInfo>, e: PageInfo)
    ensures Runs(entries + [e]) == Runs(entries) + [Run(e.phys, e.size, e.local)]
  {
  }

  /** What a walk reports is exactly the reference cut of its range in the tree it leaves; only running out of cloned pages cuts it short. */
  lemma {:induction false} WalkMatchesLookup(cfg: Config, q: Request, w: Walk, va: nat, size: nat, target: nat, i: nat)
    requires Sound(cfg, q, w.nodes) && FitsIn(cfg, va, size)
    ensures var (r, ending) := WalkFrom(cfg, q, w, va, size, target, i);
      && (ending != Overrun ==> Runs(r.entries) == Runs(w.entries) + Pages(cfg, r.nodes, q.tree, va, size))
      && (ending == Completed ==> TotalSize(Pages(cfg, r.nodes, q.tree, va, size)) == size)
      && (ending == Hole ==> q.mode.Expect?)
      && (ending == Overrun ==> q.mode.Clone?)
    decreases size
  {
    hide PageVisit, WalkFrom, WellFormed, LeafOf, LeafSize, BankAt, FitsIn, Grown, LeafFits, Runs, Pages;
    if size == 0 {
      WalkOfNothing(cfg, q, w, va, target, i);
      assert Runs(w.entries) + [] == Runs(w.entries);
      NoPages(cfg, w.nodes, q.tree, va);
    } else if q.mode.Clone? && i >= |q.infos| {
      WalkOverrun(cfg, q, w, va, size, target, i);
    } else {
      var v := PageVisit(cfg, q, w, va, size, target, InfoAt(q, i));
      TurnFacts(cfg, q, w, va, size, target, InfoAt(q, i));
      WalkTurn(cfg, q, w, va, size, target, i);
      if v.leaf.Some? {
        var step := PageStep(v.pageSize, va, size);
        var next := Report(v, va, size, BankAt(q, va));
        var r := WalkFrom(cfg, q, w, va, size, target, i).0;
        RunsAppend(v.w.entries, next.entries[|v.w.entries|]);
        WalkMatchesLookup(cfg, q, next, va + step, size - step, NextTarget(v, va, size), i + 1);
        LeafSurvivesWalk(cfg, q, next, va, v.pageSize, step, size, NextTarget(v, va, size), i + 1, v.leaf.value, r);
        PagesStart(cfg, r.nodes, q.tree, va, size, v.leaf.value);
      } else {
        HoleHasNoPage(cfg, q, w, va, size, v);
      }
    }
  }

  lemma NoPages(cfg: Config, nodes: Forest, tree: nat, va: nat)
    ensures Pages(cfg, nodes, tree, va, 0) == []
  {
  }

  lemma WalkOverrun(cfg: Config, q: Request, w: Walk, va: nat, size: nat, target: nat, i: nat)
    requires q.pageSize > 0 && cfg.levels <= 5 && size > 0 && q.mode.Clone? && i >= |q.infos|
    ensures WalkFrom(cfg, q, w, va, size, target, i) == (w, Overrun)
  {
  }

  /** The leaf just reported is still the leaf of `va`, at the same address, when the walk ends. */
  lemma LeafSurvivesWalk(cfg: Config, q: Request, next: Walk, va: nat, unit: nat, step: nat, size: nat, target: nat, i: nat, s: Slot, r: Walk)
    requires Sound(cfg, q, next.nodes) && step <= size && FitsIn(cfg, va + step, size - step)
    requires LeafOf(cfg, next.nodes, q.tree, va) == Some(s) && unit == LeafSize(next.nodes, s)
    requires size > step ==> va + step == PageEnd(va, unit)
    requires r == WalkFrom(cfg, q, next, va + step, size - step, target, i).0
    ensures LeafOf(cfg, r.nodes, q.tree, va) == Some(s) && LeafSize(r.nodes, s) == unit
    ensures r.nodes[s].phys == next.nodes[s].phys
    ensures (r.nodes[s].bank != 0) == (next.nodes[s].bank != 0)
  {
    hide PageVisit, WellFormed, LeafSize, LeafOf, BankAt, FitsIn, PageEnd, SameLookup;
    if size == step {
      WalkOfNothing(cfg, q, next, va + step, target, i);
    } else {
      WalkKeepsEarlier(cfg, q, next, va + step, size - step, target, i, q.tree, va);
      SameLookupSameFrame(cfg, next.nodes, r.nodes, q.tree, va);
    }
  }

  lemma SameLookupSameFrame(cfg: Config, a: Forest, b: Forest, tree: nat, x: nat)
    requires SameLookup(cfg, a, b, tree, x) && LeafOf(cfg, a, tree, x).Some?
    ensures var s := LeafOf(cfg, a, tree, x).value;
      && LeafOf(cfg, b, tree, x) == Some(s) && LeafSize(b, s) == LeafSize(a, s)
      && b[s].phys == a[s].phys && (b[s].bank != 0) == (a[s].bank != 0)
  {
    hide LeafOf, LeafSize;
  }

  lemma WalkOfNothing(cfg: Config, q: Request, w: Walk, va: nat, target: nat, i: nat)
    requires q.pageSize > 0 && cfg.levels <= 5
    ensures WalkFrom(cfg, q, w, va, 0, target, i) == (w, Completed)
  {
  }

  /** The first piece of the reference cut, once its leaf is known. */
  lemma PagesStart(cfg: Config, nodes: Forest, tree: nat, va: nat, size: nat, s: Slot)
    requires size > 0 && LeafOf(cfg, nodes, tree, va) == Some(s)
    ensures var unit := LeafSize(nodes, s); var step := PageStep(unit, va, size);
      Pages(cfg, nodes, tree, va, size)
      == [Run(nodes[s].phys + va % unit, step, nodes[s].bank != 0)] + Pages(cfg, nodes, tree, va + step, size - step)
  {
    hide LeafOf, LeafSize;
  }

  /** One turn of the loop, as an equation. */
  lemma WalkTurn(cfg: Config, q: Request, w: Walk, va: nat, size: nat, target: nat, i: nat)
    requires q.pageSize > 0 && cfg.levels <= 5 && size > 0 && !(q.mode.Clone? && i >= |q.infos|)
    ensures var v := PageVisit(cfg, q, w, va, size, target, InfoAt(q, i));
      if v.leaf.None? then WalkFrom(cfg, q, w, va, size, target, i) == (v.w, Hole)
      else var step := PageStep(v.pageSize, va, size);
        WalkFrom(cfg, q, w, va, size, target, i)
        == WalkFrom(cfg, q, Report(v, va, size, BankAt(q, va)), va + step, size - step, NextTarget(v, va, size), i + 1)
  {
    hide PageVisit, BankAt, Report, NextTarget;
  }

  lemma HoleHasNoPage(cfg: Config, q: Request, w: Walk, va: nat, size: nat, v: Visit)
    requires Visited(cfg, q, w, va, v) && Ready(cfg, q, w.nodes, va) && v.leaf.None? && size > 0
    ensures Pages(cfg, v.w.nodes, q.tree, va, size) == []
  {
    hide LeafSlot, WellFormed;
    var p := TableSlot(q.tree, 1, va);
    if LeafOf(cfg, v.w.nodes, q.tree, va).Some? {
      VisitOfHole(cfg, q, w, va, v);
    }
  }

  lemma VisitOfHole(cfg: Config, q: Request, w: Walk, va: nat, v: Visit)
    requires Visited(cfg, q, w, va, v) && Ready(cfg, q, w.nodes, va) && v.leaf.None?
    ensures LeafOf(cfg, v.w.nodes, q.tree, va) == None
  {
    hide LeafSlot, WellFormed;
    if LeafOf(cfg, v.w.nodes, q.tree, va) != None {
      VisitKeepsOthers(cfg, q, w, va, v, q.tree, va);
      assert false;
    }
  }

  /** The reference cut is faithful byte by byte: piece boundaries and offsets add up to the simple lookup. */
  lemma {:induction false} PagesAreBytes(cfg: Config, nodes: Forest, tree: nat, va: nat, size: nat, j: nat)
    requires WellFormed(cfg, nodes) && j < TotalSize(Pages(cfg, nodes, tree, va, size))
    ensures j < size
    ensures ByteTarget(Pages(cfg, nodes, tree, va, size), j) == Translate(cfg, nodes, tree, va + j)
    decreases size
  {
    hide LeafOf, LeafSize, WellFormed;
    var s := LeafOf(cfg, nodes, tree, va).value;
    var unit := LeafSize(nodes, s);
    var step := PageStep(unit, va, size);
    PagesStart(cfg, nodes, tree, va, size, s);
    if j < step {
      SamePage(va, j, unit);
      SamePageSameLeaf(cfg, nodes, tree, va, va + j);
    } else {
      PagesAreBytes(cfg, nodes, tree, va + step, size - step, j - step);
    }
  }

  lemma SamePage(va: nat, j: nat, unit: nat)
    requires unit > 0 && va % unit + j < unit
    ensures (va + j) / unit == va / unit && (va + j) % unit == va % unit + j
  {
    assert va == va / unit * unit + va % unit;
    DivisionUnique(va + j, unit, va / unit, va % unit + j);
  }

  /** x shares no leaf page with any byte of the range. */
  ghost predicate Apart(cfg: Config, nodes: Forest, tree: nat, va: nat, size: nat, tree': nat, x: nat) {
    forall y :: va <= y < va + size && LeafOf(cfg, nodes, tree', x).Some? ==>
      LeafOf(cfg, nodes, tree, y) != LeafOf(cfg, nodes, tree', x)
  }

  /** Addresses outside the walked pages, in any tree, keep their lookup. */
  lemma {:induction false} WalkKeepsOutside(cfg: Config, q: Request, w: Walk, va: nat, size: nat, target: nat, i: nat, tree: nat, x: nat)
    requires Sound(cfg, q, w.nodes) && FitsIn(cfg, va, size)
    requires Apart(cfg, WalkFrom(cfg, q, w, va, size, target, i).0.nodes, q.tree, va, size, tree, x)
    ensures SameLookup(cfg, w.nodes, WalkFrom(cfg, q, w, va, size, target, i).0.nodes, tree, x)
    decreases size
  {
    hide PageVisit, WellFormed, LeafOf, LeafSize, BankAt, FitsIn, Grown, LeafFits, Translate, PageEnd;
    if size > 0 && !(q.mode.Clone? && i >= |q.infos|) {
      var v := PageVisit(cfg, q, w, va, size, target, InfoAt(q, i));
      TurnFacts(cfg, q, w, va, size, target, InfoAt(q, i));
      WalkTurn(cfg, q, w, va, size, target, i);
      var r := WalkFrom(cfg, q, w, va, size, target, i).0;
      if v.leaf.Some? {
        var step := PageStep(v.pageSize, va, size);
        var next := Report(v, va, size, BankAt(q, va));
        LeafSurvivesWalk(cfg, q, next, va, v.pageSize, step, size, NextTarget(v, va, size), i + 1, v.leaf.value, r);
        OtherLeafBefore(cfg, q, next, va + step, size - step, NextTarget(v, va, size), i + 1, tree, x, r);
        WalkKeepsOutside(cfg, q, next, va + step, size - step, NextTarget(v, va, size), i + 1, tree, x);
      }
      VisitKeepsOthers(cfg, q, w, va, v, tree, x);
    }
  }

  /** A leaf a walk starts with is the leaf it ends with. */
  lemma {:induction false} OtherLeafBefore(cfg: Config, q: Request, w: Walk, va: nat, size: nat, target: nat, i: nat, tree: nat, x: nat, r: Walk)
    requires Sound(cfg, q, w.nodes) && FitsIn(cfg, va, size)
    requires r == WalkFrom(cfg, q, w, va, size, target, i).0
    ensures LeafOf(cfg, w.nodes, tree, x).Some? ==> LeafOf(cfg, r.nodes, tree, x) == LeafOf(cfg, w.nodes, tree, x)
    decreases size
  {
    hide PageVisit, WellFormed, LeafOf, LeafSize, BankAt, FitsIn, GrowsOnPath, Evolves, LeafFits, PageEnd;
    if size > 0 && !(q.mode.Clone? && i >= |q.infos|) && LeafOf(cfg, w.nodes, tree, x).Some? {
      var v := PageVisit(cfg, q, w, va, size, target, InfoAt(q, i));
      TurnFacts(cfg, q, w, va, size, target, InfoAt(q, i));
      WalkTurn(cfg, q, w, va, size, target, i);
      LeafKept(cfg, w.nodes, v.w.nodes, v.leaf, tree, x);
      if v.leaf.Some? {
        var step := PageStep(v.pageSize, va, size);
        OtherLeafBefore(cfg, q, Report(v, va, size, BankAt(q, va)), va + step, size - step, NextTarget(v, va, size), i + 1, tree, x, r);
      }
    }
  }

  /** A completed walk reports, for every byte asked for, the address the simple lookup gives in the final tree, and changes no lookup elsewhere. */
  lemma WalkMemoryMatchesLookup(cfg: Config, q: Request, nodes: Forest, mem: Physical, target: nat)
    requires Sound(cfg, q, nodes) && FitsIn(cfg, q.gfx, q.size)
    ensures var (r, ending) := WalkMemory(cfg, q, nodes, mem, target);
      && (ending == Completed ==>
            && TotalSize(Runs(r.entries)) == q.size
            && (forall j :: 0 <= j < q.size ==> ByteTarget(Runs(r.entries), j) == Translate(cfg, r.nodes, q.tree, q.gfx + j)))
      && (forall tree, x :: Apart(cfg, r.nodes, q.tree, q.gfx, q.size, tree, x) ==>
            Translate(cfg, r.nodes, tree, x) == Translate(cfg, nodes, tree, x))
  {
    hide WalkFrom, LeafOf, LeafSize, Translate, Apart;
    var w := Start(q.tree, nodes, mem);
    var (r, ending) := WalkFrom(cfg, q, w, q.gfx, q.size, target, 0);
    WalkMatchesLookup(cfg, q, w, q.gfx, q.size, target, 0);
    assert Runs(w.entries) + Pages(cfg, r.nodes, q.tree, q.gfx, q.size) == Pages(cfg, r.nodes, q.tree, q.gfx, q.size);
    WalkStaysSound(cfg, q, w, q.gfx, q.size, target, 0);
    if ending == Completed {
      forall j | 0 <= j < q.size ensures ByteTarget(Runs(r.entries), j) == Translate(cfg, r.nodes, q.tree, q.gfx + j) {
        PagesAreBytes(cfg, r.nodes, q.tree, q.gfx, q.size, j);
      }
    }
    forall tree, x | Apart(cfg, r.nodes, q.tree, q.gfx, q.size, tree, x)
      ensures Translate(cfg, r.nodes, tree, x) == Translate(cfg, nodes, tree, x) {
      WalkKeepsOutside(cfg, q, w, q.gfx, q.size, target, 0, tree, x);
    }
  }

  lemma {:induction false} WalkStaysSound(cfg: Config, q: Request, w: Walk, va: nat, size: nat, target: nat, i: nat)
    requires Sound(cfg, q, w.nodes) && FitsIn(cfg, va, size)
    ensures Sound(cfg, q, WalkFrom(cfg, q, w, va, size, target, i).0.nodes)
    decreases size
  {
    hide PageVisit, WellFormed, LeafOf, LeafSize, BankAt, FitsIn, GrowsOnPath, Evolves, LeafFits, PageEnd;
    if size > 0 && !(q.mode.Clone? && i >= |q.infos|) {
      var v := PageVisit(cfg, q, w, va, size, target, InfoAt(q, i));
      TurnFacts(cfg, q, w, va, size, target, InfoAt(q, i));
      WalkTurn(cfg, q, w, va, size, target, i);
      if v.leaf.Some? {
        var step := PageStep(v.pageSize, va, size);
        WalkStaysSound(cfg, q, Report(v, va, size, BankAt(q, va)), va + step, size - step, NextTarget(v, va, size), i + 1);
      }
    }
  }
}
