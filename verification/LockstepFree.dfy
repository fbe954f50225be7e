/** Freeing the same range of two address spaces that are copies, and what walks and frees leave alone in other trees. */
module LockstepFree {
  import opened Wrappers
  import opened Arithmetic
  import opened PageTables
  import opened PhysicalMemory
  import opened WalkModel
  import opened TreeFacts
  import opened WalkLookup
  import opened FrameOwnership
  import opened FreeModel
  import opened FreeFacts
  import opened FreeExact
  import opened MapOverride
  import opened WalkShape
  import opened Lockstep

  lemma EmptyAlike(a: Forest, t: nat, b: Forest, u: nat, p: Slot)
    requires Twin(a, t, b, u) && p.tree == t && Empty(a, p)
    ensures Empty(b, p.(tree := u))
  {
    forall x | x in b ensures Parent(x) != p.(tree := u) {
      if x.tree == u {
        TwinAt(a, t, b, u, x.(tree := t), x);
        assert Parent(x.(tree := t)) == Parent(x).(tree := t);
      }
    }
  }

  lemma WithoutAlike(a: Forest, t: nat, b: Forest, u: nat, s: Slot)
    requires Twin(a, t, b, u) && s.tree == t
    ensures Twin(a - {s}, t, b - {s.(tree := u)}, u)
  {
    hide Alike;
    forall l: nat, n: nat ensures Alike(NodeAt(a - {s}, Slot(t, l, n)), NodeAt(b - {s.(tree := u)}, Slot(u, l, n))) {
      assert Alike(NodeAt(a, Slot(t, l, n)), NodeAt(b, Slot(u, l, n)));
      NoneAlike();
    }
  }

  lemma NoneAlike()
    ensures Alike(None, None)
  {
  }

  /** The slots a page's freeing vacates are at the same places in both. */
  lemma GoneAlike(cfg: Config, a: Forest, a': Forest, t: nat, b: Forest, b': Forest, u: nat, va: nat)
    requires Twin(a, t, b, u) && PageGone(cfg, a, a', t, va) && PageGone(cfg, b, b', u, va)
    requires Shrunk(a, a') && Shrunk(b, b')
    ensures Twin(a', t, b', u)
  {
    hide LeafSlot, Alike, Empty, Shrunk;
    var p, r := TableSlot(t, 1, va), TableSlot(u, 1, va);
    TwinAt(a, t, b, u, p, r);
    SameKind(a, b, p, r);
    var s := if a[p].kind.Page2MB? then p else LeafSlot(cfg, t, a[p].kind, va);
    var table := if a[p].kind.Page2MB? then TableSlot(t, 2, va) else p;
    LeafSlotLevel(cfg, t, a[p].kind, va);
    LeafSlotTree(cfg, t, u, a[p].kind, va);
    var s', table' := s.(tree := u), table.(tree := u);
    WithoutAlike(a, t, b, u, s);
    EmptyBoth(a - {s}, t, b - {s'}, u, table);
    var goneA := {s} + if Empty(a - {s}, table) then {table} else {};
    var goneB := {s'} + if Empty(b - {s'}, table') then {table'} else {};
    assert a'.Keys == a.Keys - goneA && b'.Keys == b.Keys - goneB;
    forall l: nat, n: nat ensures Alike(NodeAt(a', Slot(t, l, n)), NodeAt(b', Slot(u, l, n))) {
      assert Slot(t, l, n) in goneA <==> Slot(u, l, n) in goneB;
      assert Alike(NodeAt(a, Slot(t, l, n)), NodeAt(b, Slot(u, l, n)));
      AlikePresence(a, b, Slot(t, l, n), Slot(u, l, n));
      SurvivorsAlike(a, a', b, b', Slot(t, l, n), Slot(u, l, n));
    }
  }

  lemma AlikePresence(a: Forest, b: Forest, s: Slot, r: Slot)
    requires Alike(NodeAt(a, s), NodeAt(b, r))
    ensures s in a <==> r in b
  {
  }

  lemma SameKind(a: Forest, b: Forest, p: Slot, r: Slot)
    requires Alike(NodeAt(a, p), NodeAt(b, r)) && p in a && r in b
    ensures a[p].kind == b[r].kind
  {
  }

  lemma EmptyBoth(a: Forest, t: nat, b: Forest, u: nat, p: Slot)
    requires Twin(a, t, b, u) && p.tree == t
    ensures Empty(a, p) == Empty(b, p.(tree := u))
  {
    hide Empty, Twin;
    if Empty(a, p) { EmptyAlike(a, t, b, u, p); }
    if Empty(b, p.(tree := u)) {
      TwinSymmetric(a, t, b, u);
      EmptyAlike(b, u, a, t, p.(tree := u));
      assert p.(tree := u).(tree := t) == p;
    }
  }

  lemma SurvivorsAlike(a: Forest, a': Forest, b: Forest, b': Forest, s: Slot, r: Slot)
    requires Shrunk(a, a') && Shrunk(b, b') && Alike(NodeAt(a, s), NodeAt(b, r)) && (s in a' <==> r in b')
    ensures Alike(NodeAt(a', s), NodeAt(b', r))
  {
  }

  lemma {:induction false} FreeTwin(cfg: Config, g: Layout, a0: Forest, memA: Physical, fA: Freeing, b0: Forest, memB: Physical, fB: Freeing,
                                    va: nat, size: nat, start: nat, end: nat)
    requires FreeInv(cfg, g, a0, memA, fA) && FreeInv(cfg, g, b0, memB, fB) && Twin(fA.nodes, fA.tree, fB.nodes, fB.tree)
    ensures var (rA, doneA) := FreeFrom(cfg, fA, va, size, start, end);
      var (rB, doneB) := FreeFrom(cfg, fB, va, size, start, end);
      doneA == doneB && Twin(rA.nodes, fA.tree, rB.nodes, fB.tree)
    decreases size
  {
    hide FreePage, FreeFrom, FreeInv, PageGone, Shrunk, PageStep, WellFormed, Sane, ReturnsFrames, QueueOk, Twin;
    if size == 0 {
      FreeNothing(cfg, fA, va, start, end);
      FreeNothing(cfg, fB, va, start, end);
    } else {
      FreeTurn(cfg, fA, va, size, start, end);
      FreeTurn(cfg, fB, va, size, start, end);
      SameUnits(fA.nodes, fA.tree, fB.nodes, fB.tree, va);
      if PageSizeOf(fA.nodes, fA.tree, va).Some? {
        var step := PageStep(PageSizeOf(fA.nodes, fA.tree, va).value, va, size);
        FreePageKeepsInv(cfg, g, a0, memA, fA, va, size, start, end);
        FreePageKeepsInv(cfg, g, b0, memB, fB, va, size, start, end);
        var fA1, fB1 := FreePage(cfg, fA, va, size, start, end), FreePage(cfg, fB, va, size, start, end);
        GoneAlike(cfg, fA.nodes, fA1.nodes, fA.tree, fB.nodes, fB1.nodes, fB.tree, va);
        FreeTwin(cfg, g, a0, memA, fA1, b0, memB, fB1, va + step, size - step, start, end);
      }
    }
  }

  lemma SameUnits(a: Forest, t: nat, b: Forest, u: nat, va: nat)
    requires Twin(a, t, b, u)
    ensures PageSizeOf(a, t, va) == PageSizeOf(b, u, va)
  {
    TwinAt(a, t, b, u, TableSlot(t, 1, va), TableSlot(u, 1, va));
  }

  // ---- other trees ----

  lemma VisitLeavesOthers(cfg: Config, q: Request, w: Walk, va: nat, v: Visit, u: nat)
    requires Visited(cfg, q, w, va, v) && u != q.tree
    ensures Twin(w.nodes, u, v.w.nodes, u)
    ensures forall s :: s in v.w.nodes && s.tree == u ==> s in w.nodes && v.w.nodes[s].reserved == w.nodes[s].reserved
  {
    hide WellFormed, LeafSize, LeafSlot;
    if v.leaf.Some? { LeafTree(cfg, v.w.nodes, q.tree, va); }
    forall s | s in v.w.nodes && s.tree == u ensures s in w.nodes {}
    forall l: nat, n: nat ensures Alike(NodeAt(w.nodes, Slot(u, l, n)), NodeAt(v.w.nodes, Slot(u, l, n))) {
      assert Slot(u, l, n) in v.w.nodes ==> Slot(u, l, n) in w.nodes;
    }
  }

  lemma {:induction false} WalkLeavesOthers(cfg: Config, q: Request, w: Walk, va: nat, size: nat, target: nat, i: nat, u: nat)
    requires Sound(cfg, q, w.nodes) && FitsIn(cfg, va, size) && u != q.tree
    ensures var r := WalkFrom(cfg, q, w, va, size, target, i).0;
      && Twin(w.nodes, u, r.nodes, u)
      && (forall s :: s in r.nodes && s.tree == u ==> s in w.nodes && r.nodes[s].reserved == w.nodes[s].reserved)
    decreases size
  {
    hide PageVisit, WellFormed, LeafOf, LeafSize, BankAt, FitsIn, GrowsOnPath, LeafFits, PageEnd, Evolves, Twin;
    TwinReflexive(w.nodes, u);
    if size > 0 && !(q.mode.Clone? && i >= |q.infos|) {
      var v := PageVisit(cfg, q, w, va, size, target, InfoAt(q, i));
      TurnFacts(cfg, q, w, va, size, target, InfoAt(q, i));
      WalkTurn(cfg, q, w, va, size, target, i);
      VisitLeavesOthers(cfg, q, w, va, v, u);
      if v.leaf.Some? {
        var step := PageStep(v.pageSize, va, size);
        WalkLeavesOthers(cfg, q, Report(v, va, size, BankAt(q, va)), va + step, size - step, NextTarget(v, va, size), i + 1, u);
        TwinTransitive(w.nodes, u, v.w.nodes, u, WalkFrom(cfg, q, w, va, size, target, i).0.nodes, u);
      }
    }
  }

  lemma FreePageLeavesOthers(cfg: Config, a: Forest, b: Forest, t: nat, va: nat, u: nat)
    requires PageGone(cfg, a, b, t, va) && Shrunk(a, b) && u != t
    ensures Twin(a, u, b, u)
  {
    hide LeafSlot, Empty;
    LeafSlotLevel(cfg, t, a[TableSlot(t, 1, va)].kind, va);
  }

  lemma {:induction false} FreeLeavesOthers(cfg: Config, g: Layout, n0: Forest, mem0: Physical, f: Freeing, va: nat, size: nat, start: nat, end: nat, u: nat)
    requires FreeInv(cfg, g, n0, mem0, f) && u != f.tree
    ensures Twin(f.nodes, u, FreeFrom(cfg, f, va, size, start, end).0.nodes, u)
    decreases size
  {
    hide FreePage, FreeFrom, FreeInv, PageGone, Shrunk, PageStep, Twin;
    TwinReflexive(f.nodes, u);
    if size == 0 {
      FreeNothing(cfg, f, va, start, end);
    } else {
      FreeTurn(cfg, f, va, size, start, end);
      if PageSizeOf(f.nodes, f.tree, va).Some? {
        var step := PageStep(PageSizeOf(f.nodes, f.tree, va).value, va, size);
        FreePageKeepsInv(cfg, g, n0, mem0, f, va, size, start, end);
        var f1 := FreePage(cfg, f, va, size, start, end);
        FreePageLeavesOthers(cfg, f.nodes, f1.nodes, f.tree, va, u);
        FreeLeavesOthers(cfg, g, n0, mem0, f1, va + step, size - step, start, end, u);
        TwinTransitive(f.nodes, u, f1.nodes, u, FreeFrom(cfg, f1, va + step, size - step, start, end).0.nodes, u);
      }
    }
  }

  // ---- followers own no pages ----

  /** The leaves of this tree are borrowed: they hold no frame of their own. */
  ghost predicate OwnsNoLeaf(nodes: Forest, t: nat) {
    forall s :: s in nodes && s.tree == t && !IsTable(nodes[s].kind) ==> nodes[s].reserved == 0
  }

  /** Freeing a borrowed leaf gives nothing back. */
  lemma BorrowedLeaf(cfg: Config, nodes: Forest, tree: nat, x: nat)
    requires WellFormed(cfg, nodes) && OwnsNoLeaf(nodes, tree) && LeafOf(cfg, nodes, tree, x).Some?
    ensures nodes[LeafOf(cfg, nodes, tree, x).value].reserved == 0
  {
    hide WellFormed, LeafSlot;
    var s := LeafOf(cfg, nodes, tree, x).value;
    LeafTree(cfg, nodes, tree, x);
    LeafNoTable(cfg, nodes, tree, x, s);
  }

  lemma VisitBorrows(cfg: Config, q: Request, w: Walk, va: nat, target: nat, info: PageInfo, v: Visit)
    requires Builds(q) && (q.mapping || q.mode.Clone?) && Shaped(cfg, q, w, va, target, info, v) && Visited(cfg, q, w, va, v)
    requires OwnsNoLeaf(w.nodes, q.tree)
    ensures OwnsNoLeaf(v.w.nodes, q.tree)
  {
    hide WellFormed, LeafSlot, BankAt, Landing, PlannedLeaf, PlannedKind, RoundDown;
    forall s | s in v.w.nodes && s.tree == q.tree && !IsTable(v.w.nodes[s].kind) ensures v.w.nodes[s].reserved == 0 {
      if s in w.nodes { assert v.w.nodes[s].kind == w.nodes[s].kind; }
    }
  }

  lemma {:induction false} WalkBorrows(cfg: Config, q: Request, w: Walk, va: nat, size: nat, target: nat, i: nat)
    requires Sound(cfg, q, w.nodes) && FitsIn(cfg, va, size) && Builds(q) && (q.mapping || q.mode.Clone?) && OwnsNoLeaf(w.nodes, q.tree)
    ensures OwnsNoLeaf(WalkFrom(cfg, q, w, va, size, target, i).0.nodes, q.tree)
    decreases size
  {
    hide PageVisit, WellFormed, LeafOf, LeafSize, BankAt, FitsIn, GrowsOnPath, LeafFits, PageEnd, Evolves, OwnsNoLeaf, Shaped;
    if size > 0 && !(q.mode.Clone? && i >= |q.infos|) {
      var v := PageVisit(cfg, q, w, va, size, target, InfoAt(q, i));
      TurnFacts(cfg, q, w, va, size, target, InfoAt(q, i));
      WalkTurn(cfg, q, w, va, size, target, i);
      PageVisitShape(cfg, q, w, va, size, target, InfoAt(q, i));
      VisitBorrows(cfg, q, w, va, target, InfoAt(q, i), v);
      var step := PageStep(v.pageSize, va, size);
      WalkBorrows(cfg, q, Report(v, va, size, BankAt(q, va)), va + step, size - step, NextTarget(v, va, size), i + 1);
    }
  }
}
