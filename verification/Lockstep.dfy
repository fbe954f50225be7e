/** Two address spaces walked in step stay copies of each other: same shape, same leaves. */
module Lockstep {
  import opened Wrappers
  import opened Arithmetic
  import opened PageTables
  import opened WalkModel
  import opened TreeFacts
  import opened WalkLookup
  import opened MapOverride
  import opened WalkShape
  import opened PhysicalMemory
  import opened Reservations

  /** Tables may sit in different frames; leaves may not. */
  ghost predicate Alike(x: Option<Node>, y: Option<Node>) {
    && x.Some? == y.Some?
    && (x.Some? ==>
          && x.value.kind == y.value.kind
          && (!IsTable(x.value.kind) ==>
                x.value.phys == y.value.phys && x.value.bank == y.value.bank && x.value.attributes == y.value.attributes))
  }

  /** Tree t of one forest and tree u of another: the same slots hold the same tables and leaves. */
  ghost predicate Twin(a: Forest, t: nat, b: Forest, u: nat) {
    forall l: nat, n: nat :: Alike(NodeAt(a, Slot(t, l, n)), NodeAt(b, Slot(u, l, n)))
  }

  lemma TwinAt(a: Forest, t: nat, b: Forest, u: nat, s: Slot, r: Slot)
    requires Twin(a, t, b, u) && s.tree == t && r == s.(tree := u)
    ensures Alike(NodeAt(a, s), NodeAt(b, r))
  {
    assert s == Slot(t, s.level, s.num) && r == Slot(u, s.level, s.num);
  }

  lemma TwinReflexive(a: Forest, t: nat)
    ensures Twin(a, t, a, t)
  {
  }

  lemma TwinSymmetric(a: Forest, t: nat, b: Forest, u: nat)
    requires Twin(a, t, b, u)
    ensures Twin(b, u, a, t)
  {
  }

  lemma TwinTransitive(a: Forest, t: nat, b: Forest, u: nat, c: Forest, v: nat)
    requires Twin(a, t, b, u) && Twin(b, u, c, v)
    ensures Twin(a, t, c, v)
  {
    forall l: nat, n: nat ensures Alike(NodeAt(a, Slot(t, l, n)), NodeAt(c, Slot(v, l, n))) {
      assert Alike(NodeAt(a, Slot(t, l, n)), NodeAt(b, Slot(u, l, n))) && Alike(NodeAt(b, Slot(u, l, n)), NodeAt(c, Slot(v, l, n)));
    }
  }

  /** Copies translate alike. */
  lemma TwinsTranslateAlike(cfg: Config, a: Forest, t: nat, b: Forest, u: nat, x: nat)
    requires Twin(a, t, b, u) && WellFormed(cfg, a) && WellFormed(cfg, b)
    ensures Translate(cfg, a, t, x) == Translate(cfg, b, u, x)
    ensures LeafOf(cfg, a, t, x).Some? == LeafOf(cfg, b, u, x).Some?
  {
    hide WellFormed, LeafSlot;
    var p := TableSlot(t, 1, x);
    TwinAt(a, t, b, u, p, TableSlot(u, 1, x));
    if p in a && !a[p].kind.Page2MB? {
      var kind := a[p].kind;
      LeafSlotLevel(cfg, t, kind, x);
      LeafSlotLevel(cfg, u, kind, x);
      LeafSlotParent(cfg, t, kind, x);
      LeafSlotParent(cfg, u, kind, x);
      LeafSlotTree(cfg, t, u, kind, x);
      TwinAt(a, t, b, u, LeafSlot(cfg, t, kind, x), LeafSlot(cfg, u, kind, x));
      if LeafSlot(cfg, t, kind, x) in a { LeafUnderTable(cfg, a, LeafSlot(cfg, t, kind, x)); }
    }
  }

  lemma LeafSlotTree(cfg: Config, t: nat, u: nat, kind: Kind, x: nat)
    ensures LeafSlot(cfg, u, kind, x) == LeafSlot(cfg, t, kind, x).(tree := u)
  {
  }

  // ---- one page ----

  /** B follows A: it clones what A reserves, or both map the same memory. */
  predicate Follows(qA: Request, qB: Request) {
    && Builds(qA) && Builds(qB) && qA.mode.Reserve? && qB.tree != qA.tree
    && qB.pageSize == qA.pageSize && qB.attributes == qA.attributes && qB.banks == qA.banks && qB.mapping == qA.mapping
    && qB.gfx == qA.gfx && qB.size == qA.size
    && (qB.mode.Clone? <==> !qA.mapping)
  }

  /** What A reported of its page is what B is given, and A's frame, if new, is as aligned as the page. */
  ghost predicate Told(qA: Request, wA: Walk, vA: Visit, va: nat, infoB: PageInfo)
    requires vA.pageSize > 0 && qA.pageSize > 0 && vA.leaf.Some? && vA.leaf.value in vA.w.nodes
  {
    var leaf := vA.w.nodes[vA.leaf.value];
    !qA.mapping ==>
      && infoB.phys == leaf.phys + va % vA.pageSize && infoB.bank == BankAt(qA, va)
      && (vA.leaf.value !in wA.nodes ==> leaf.phys % vA.pageSize == 0)
  }

  lemma SamePlans(cfg: Config, qA: Request, qB: Request, a: Forest, b: Forest, va: nat)
    requires Twin(a, qA.tree, b, qB.tree) && Follows(qA, qB)
    ensures PlannedKind(b, qB, va) == PlannedKind(a, qA, va)
    ensures PlannedLeaf(cfg, b, qB, va) == PlannedLeaf(cfg, a, qA, va).(tree := qB.tree)
    ensures PlannedLeaf(cfg, a, qA, va).tree == qA.tree
  {
    hide LeafSlot;
    TwinAt(a, qA.tree, b, qB.tree, TableSlot(qA.tree, 1, va), TableSlot(qB.tree, 1, va));
    LeafSlotTree(cfg, qA.tree, qB.tree, PlannedKind(a, qA, va), va);
    LeafSlotLevel(cfg, qA.tree, PlannedKind(a, qA, va), va);
  }

  lemma LeavesAlike(cfg: Config, qA: Request, qB: Request, wA: Walk, wB: Walk, va: nat, target: nat, infoA: PageInfo, infoB: PageInfo,
                    vA: Visit, vB: Visit)
    requires Follows(qA, qB) && Twin(wA.nodes, qA.tree, wB.nodes, qB.tree)
    requires Shaped(cfg, qA, wA, va, target, infoA, vA) && Shaped(cfg, qB, wB, va, target, infoB, vB)
    requires Told(qA, wA, vA, va, infoB)
    requires vA.leaf.value in wA.nodes ==> !IsTable(wA.nodes[vA.leaf.value].kind)
    ensures vB.pageSize == vA.pageSize && vB.target == vA.target
    ensures var m, n := vA.w.nodes[vA.leaf.value], vB.w.nodes[vB.leaf.value];
      m.phys == n.phys && m.bank == n.bank && m.attributes == n.attributes
  {
    hide LeafSlot, PlannedLeaf, PlannedKind, BankAt, Landing;
    SamePlans(cfg, qA, qB, wA.nodes, wB.nodes, va);
    TwinAt(wA.nodes, qA.tree, wB.nodes, qB.tree, vA.leaf.value, vB.leaf.value);
    if !qA.mapping && vA.leaf.value !in wA.nodes {
      RoundsBackExactly(vA.w.nodes[vA.leaf.value].phys, va, vA.pageSize);
    }
  }

  /** Rounding an address inside a page down to the page's size gives the page's frame exactly when the frame is aligned. */
  lemma RoundsBackExactly(phys: nat, va: nat, unit: nat)
    requires unit > 0
    ensures RoundDown(phys + va % unit, unit) == phys <==> phys % unit == 0
  {
    if phys % unit == 0 {
      assert phys == phys / unit * unit;
      DivisionUnique(phys + va % unit, unit, phys / unit, va % unit);
    } else {
      RoundDownIsMultiple(phys + va % unit, unit);
    }
  }

  lemma RoundDownIsMultiple(n: nat, unit: nat)
    requires unit > 0
    ensures RoundDown(n, unit) % unit == 0
  {
    MultipleModulo(n / unit, unit);
  }

  /** A clone of a page that got a frame of its own stands where the original does exactly when that frame is aligned. */
  lemma CloneLandsExactly(cfg: Config, qA: Request, qB: Request, wA: Walk, wB: Walk, va: nat, target: nat, infoA: PageInfo, infoB: PageInfo,
                          vA: Visit, vB: Visit)
    requires Follows(qA, qB) && Twin(wA.nodes, qA.tree, wB.nodes, qB.tree) && !qA.mapping
    requires Shaped(cfg, qA, wA, va, target, infoA, vA) && Shaped(cfg, qB, wB, va, target, infoB, vB)
    requires vA.leaf.value !in wA.nodes && infoB.phys == vA.w.nodes[vA.leaf.value].phys + va % vA.pageSize
    ensures vB.w.nodes[vB.leaf.value].phys == vA.w.nodes[vA.leaf.value].phys <==> vA.w.nodes[vA.leaf.value].phys % vA.pageSize == 0
  {
    hide LeafSlot, PlannedLeaf, PlannedKind, BankAt, Landing, RoundDown;
    SamePlans(cfg, qA, qB, wA.nodes, wB.nodes, va);
    TwinAt(wA.nodes, qA.tree, wB.nodes, qB.tree, vA.leaf.value, vB.leaf.value);
    RoundsBackExactly(vA.w.nodes[vA.leaf.value].phys, va, vA.pageSize);
  }

  lemma OtherNodesAlike(cfg: Config, qA: Request, qB: Request, wA: Walk, wB: Walk, va: nat, target: nat, infoA: PageInfo, infoB: PageInfo,
                        vA: Visit, vB: Visit, l: nat, n: nat)
    requires ValidConfig(cfg) && Follows(qA, qB) && Twin(wA.nodes, qA.tree, wB.nodes, qB.tree)
    requires Shaped(cfg, qA, wA, va, target, infoA, vA) && Shaped(cfg, qB, wB, va, target, infoB, vB)
    requires Evolves(wA.nodes, vA.w.nodes, vA.leaf) && Evolves(wB.nodes, vB.w.nodes, vB.leaf)
    requires WellFormed(cfg, vA.w.nodes) && WellFormed(cfg, vB.w.nodes)
    requires Some(Slot(qA.tree, l, n)) != vA.leaf
    ensures Alike(NodeAt(vA.w.nodes, Slot(qA.tree, l, n)), NodeAt(vB.w.nodes, Slot(qB.tree, l, n)))
  {
    hide LeafSlot, BankAt, Landing, LeafPlaced, WellFormed, Span;
    var s, r := Slot(qA.tree, l, n), Slot(qB.tree, l, n);
    SamePlans(cfg, qA, qB, wA.nodes, wB.nodes, va);
    assert Alike(NodeAt(wA.nodes, s), NodeAt(wB.nodes, r));
    assert s in vA.w.nodes <==> r in vB.w.nodes;
    if s in vA.w.nodes && s !in wA.nodes {
      assert l >= 1;
      if l >= 2 {
        TableAbove(cfg, vA.w.nodes, s);
        TableAbove(cfg, vB.w.nodes, r);
      } else {
        PdeKind(cfg, vA.w.nodes, s);
        assert vA.w.nodes[s].kind == vB.w.nodes[r].kind;
      }
    }
  }

  lemma VisitTwin(cfg: Config, qA: Request, qB: Request, wA: Walk, wB: Walk, va: nat, target: nat, infoA: PageInfo, infoB: PageInfo,
                  vA: Visit, vB: Visit)
    requires ValidConfig(cfg) && Follows(qA, qB) && Twin(wA.nodes, qA.tree, wB.nodes, qB.tree)
    requires Shaped(cfg, qA, wA, va, target, infoA, vA) && Shaped(cfg, qB, wB, va, target, infoB, vB)
    requires Visited(cfg, qA, wA, va, vA) && Visited(cfg, qB, wB, va, vB) && Told(qA, wA, vA, va, infoB)
    ensures Twin(vA.w.nodes, qA.tree, vB.w.nodes, qB.tree)
    ensures vB.leaf.Some? && vB.pageSize == vA.pageSize && vB.target == vA.target
  {
    hide Shaped, Told, WellFormed, LeafOf, LeafSize, GrowsOnPath, BankAt;
    LeafKinds(cfg, qA, qB, wA, wB, va, target, infoA, infoB, vA, vB);
    LeavesAlike(cfg, qA, qB, wA, wB, va, target, infoA, infoB, vA, vB);
    forall l: nat, n: nat ensures Alike(NodeAt(vA.w.nodes, Slot(qA.tree, l, n)), NodeAt(vB.w.nodes, Slot(qB.tree, l, n))) {
      if Some(Slot(qA.tree, l, n)) != vA.leaf {
        OtherNodesAlike(cfg, qA, qB, wA, wB, va, target, infoA, infoB, vA, vB, l, n);
      }
    }
  }

  lemma LeafKinds(cfg: Config, qA: Request, qB: Request, wA: Walk, wB: Walk, va: nat, target: nat, infoA: PageInfo, infoB: PageInfo,
                  vA: Visit, vB: Visit)
    requires ValidConfig(cfg) && Follows(qA, qB) && Twin(wA.nodes, qA.tree, wB.nodes, qB.tree)
    requires Shaped(cfg, qA, wA, va, target, infoA, vA) && Shaped(cfg, qB, wB, va, target, infoB, vB)
    requires Visited(cfg, qA, wA, va, vA) && Visited(cfg, qB, wB, va, vB)
    ensures vA.leaf.Some? && vB.leaf.Some? && vA.leaf.value in vA.w.nodes && vB.leaf.value in vB.w.nodes
    ensures vA.pageSize > 0 && vB.leaf.value == vA.leaf.value.(tree := qB.tree) && vA.leaf.value.tree == qA.tree
    ensures var m, n := vA.w.nodes[vA.leaf.value], vB.w.nodes[vB.leaf.value]; m.kind == n.kind && !IsTable(m.kind)
    ensures vA.leaf.value in wA.nodes ==> !IsTable(wA.nodes[vA.leaf.value].kind)
  {
    hide LeafPlaced, WellFormed, LeafOf, LeafSize, LeafSlot, GrowsOnPath, BankAt, Landing;
    SamePlans(cfg, qA, qB, wA.nodes, wB.nodes, va);
    LeafSlotLevel(cfg, qA.tree, PlannedKind(wA.nodes, qA, va), va);
    if vA.leaf.value.level == 0 {
      LeafUnderTable(cfg, vA.w.nodes, vA.leaf.value);
      LeafUnderTable(cfg, vB.w.nodes, vB.leaf.value);
    }
  }

  // ---- whole walks ----

  /** Pages reported stay reported. */
  lemma {:induction false} WalkOnlyReports(cfg: Config, q: Request, w: Walk, va: nat, size: nat, target: nat, i: nat)
    requires Sound(cfg, q, w.nodes) && FitsIn(cfg, va, size)
    ensures w.entries <= WalkFrom(cfg, q, w, va, size, target, i).0.entries
    decreases size
  {
    hide PageVisit, WellFormed, LeafOf, LeafSize, BankAt, FitsIn, GrowsOnPath, LeafFits, PageEnd, Evolves;
    if size > 0 && !(q.mode.Clone? && i >= |q.infos|) {
      var v := PageVisit(cfg, q, w, va, size, target, InfoAt(q, i));
      TurnFacts(cfg, q, w, va, size, target, InfoAt(q, i));
      WalkTurn(cfg, q, w, va, size, target, i);
      if v.leaf.Some? {
        var step := PageStep(v.pageSize, va, size);
        WalkOnlyReports(cfg, q, Report(v, va, size, BankAt(q, va)), va + step, size - step, NextTarget(v, va, size), i + 1);
      }
    }
  }

  /** The page information the follower is handed for its next page. */
  lemma InfoForFollower(cfg: Config, g: Layout, qA: Request, qB: Request, wA: Walk, va: nat, size: nat, target: nat, i: nat, vA: Visit)
    requires Sound(cfg, qA, wA.nodes) && FitsIn(cfg, va, size) && size > 0 && Follows(qA, qB)
    requires vA == PageVisit(cfg, qA, wA, va, size, target, InfoAt(qA, i))
    requires PoolOk(wA.mem, g)
    requires qB.mode.Clone? ==> |wA.entries| == i && qB.infos == WalkFrom(cfg, qA, wA, va, size, target, i).0.entries
    ensures vA.leaf.Some? && vA.leaf.value in vA.w.nodes && vA.pageSize > 0
    ensures Told(qA, wA, vA, va, InfoAt(qB, i))
    ensures qB.mode.Clone? ==> i < |qB.infos|
    ensures PoolOk(vA.w.mem, g)
  {
    hide PageVisit, WalkFrom, WellFormed, LeafOf, LeafSize, FitsIn, Grown, LeafFits, PoolOk, BankAt, PlannedLeaf, PlannedKind, LeafPlaced;
    TurnFacts(cfg, qA, wA, va, size, target, InfoAt(qA, i));
    PageVisitShape(cfg, qA, wA, va, size, target, InfoAt(qA, i));
    VisitKeepsPool(cfg, qA, wA, g, va, size, target, InfoAt(qA, i));
    ShapeHasLeaf(cfg, qA, wA, va, target, InfoAt(qA, i), vA);
    if qB.mode.Clone? {
      WalkTurn(cfg, qA, wA, va, size, target, i);
      var next := Report(vA, va, size, BankAt(qA, va));
      var step := PageStep(vA.pageSize, va, size);
      WalkOnlyReports(cfg, qA, next, va + step, size - step, NextTarget(vA, va, size), i + 1);
      assert qB.infos[i] == next.entries[i];
    }
  }

  lemma ShapeHasLeaf(cfg: Config, q: Request, w: Walk, va: nat, target: nat, info: PageInfo, v: Visit)
    requires Builds(q) && Shaped(cfg, q, w, va, target, info, v)
    ensures v.leaf.Some? && v.leaf.value in v.w.nodes
    ensures v.leaf.value == PlannedLeaf(cfg, w.nodes, q, va) && v.pageSize == PageSizeAt(PlannedKind(w.nodes, q, va))
  {
    hide BankAt, PlannedLeaf, PlannedKind, Landing;
  }

  /** One turn of both walks. */
  lemma TurnTwin(cfg: Config, g: Layout, qA: Request, qB: Request, wA: Walk, wB: Walk, va: nat, size: nat, target: nat, i: nat)
    requires Sound(cfg, qA, wA.nodes) && Sound(cfg, qB, wB.nodes) && FitsIn(cfg, va, size) && size > 0
    requires Follows(qA, qB) && Twin(wA.nodes, qA.tree, wB.nodes, qB.tree)
    requires PoolOk(wA.mem, g)
    requires qB.mode.Clone? ==> |wA.entries| == i && qB.infos == WalkFrom(cfg, qA, wA, va, size, target, i).0.entries
    ensures var vA := PageVisit(cfg, qA, wA, va, size, target, InfoAt(qA, i));
      var vB := PageVisit(cfg, qB, wB, va, size, target, InfoAt(qB, i));
      && vA.leaf.Some? && vB.leaf.Some? && vB.pageSize == vA.pageSize && vB.target == vA.target
      && Twin(vA.w.nodes, qA.tree, vB.w.nodes, qB.tree)
      && (qB.mode.Clone? ==> i < |qB.infos|) && PoolOk(vA.w.mem, g)
  {
    hide PageVisit, WalkFrom, WellFormed, Visited, FitsIn, PoolOk, BankAt, Shaped, Twin, Told;
    var vA := PageVisit(cfg, qA, wA, va, size, target, InfoAt(qA, i));
    var vB := PageVisit(cfg, qB, wB, va, size, target, InfoAt(qB, i));
    TurnFacts(cfg, qA, wA, va, size, target, InfoAt(qA, i));
    TurnFacts(cfg, qB, wB, va, size, target, InfoAt(qB, i));
    InfoForFollower(cfg, g, qA, qB, wA, va, size, target, i, vA);
    PageVisitShape(cfg, qA, wA, va, size, target, InfoAt(qA, i));
    PageVisitShape(cfg, qB, wB, va, size, target, InfoAt(qB, i));
    VisitTwin(cfg, qA, qB, wA, wB, va, target, InfoAt(qA, i), InfoAt(qB, i), vA, vB);
  }

  /** Whatever the leader reserves, clones of it end up with the same leaves; the same mapping leaves the same leaves. Nothing is
      asked of what was mapped before. */
  lemma {:induction false} WalkTwin(cfg: Config, g: Layout, qA: Request, qB: Request, wA: Walk, wB: Walk, va: nat, size: nat, target: nat, i: nat)
    requires Sound(cfg, qA, wA.nodes) && Sound(cfg, qB, wB.nodes) && FitsIn(cfg, va, size)
    requires Follows(qA, qB) && Twin(wA.nodes, qA.tree, wB.nodes, qB.tree)
    requires PoolOk(wA.mem, g)
    requires qB.mode.Clone? ==> |wA.entries| == i && qB.infos == WalkFrom(cfg, qA, wA, va, size, target, i).0.entries
    ensures var (rA, endA) := WalkFrom(cfg, qA, wA, va, size, target, i);
      var (rB, endB) := WalkFrom(cfg, qB, wB, va, size, target, i);
      endA == Completed && endB == Completed && Twin(rA.nodes, qA.tree, rB.nodes, qB.tree)
    decreases size
  {
    hide PageVisit, WalkFrom, WellFormed, LeafOf, LeafSize, FitsIn, Grown, LeafFits, PoolOk, BankAt, Twin, PageEnd;
    if size == 0 {
      WalkOfNothing(cfg, qA, wA, va, target, i);
      WalkOfNothing(cfg, qB, wB, va, target, i);
    } else {
      var vA := PageVisit(cfg, qA, wA, va, size, target, InfoAt(qA, i));
      var vB := PageVisit(cfg, qB, wB, va, size, target, InfoAt(qB, i));
      TurnFacts(cfg, qA, wA, va, size, target, InfoAt(qA, i));
      TurnFacts(cfg, qB, wB, va, size, target, InfoAt(qB, i));
      TurnTwin(cfg, g, qA, qB, wA, wB, va, size, target, i);
      WalkTurn(cfg, qA, wA, va, size, target, i);
      WalkTurn(cfg, qB, wB, va, size, target, i);
      var step := PageStep(vA.pageSize, va, size);
      WalkTwin(cfg, g, qA, qB, Report(vA, va, size, BankAt(qA, va)), Report(vB, va, size, BankAt(qB, va)),
               va + step, size - step, NextTarget(vA, va, size), i + 1);
    }
  }
}
