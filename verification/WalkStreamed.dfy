/** A whole walk keeps the stream invariant, and leaves no visited path waiting. */
module WalkStreamed {
  import opened Arithmetic
  import opened PageTables
  import opened WalkModel
  import opened TreeFacts
  import opened WalkLookup
  import opened WalkStream
  import PhysicalMemory

  lemma ReportKeepsQueued(cfg: Config, q: Request, n0: Forest, v: Visit, va: nat, size: nat)
    requires v.leaf.Some? && v.leaf.value in v.w.nodes && v.pageSize > 0 && q.pageSize > 0 && Queued(cfg, n0, v.w, {})
    ensures var next := Report(v, va, size, BankAt(q, va));
      && Queued(cfg, n0, next, {}) && next.tree == v.w.tree && next.emitted == v.w.emitted && next.nodes == v.w.nodes
      && (forall at :: MarksOk(cfg, v.w, q.tree, at) ==> MarksOk(cfg, next, q.tree, at))
  {
    hide Queued, BankAt;
    OnlyQueuesMatter(cfg, n0, v.w, Report(v, va, size, BankAt(q, va)), {});
  }

  lemma {:induction false} WalkKeepsQueued(cfg: Config, q: Request, n0: Forest, w: Walk, va: nat, size: nat, target: nat, i: nat)
    requires Sound(cfg, q, w.nodes) && FitsIn(cfg, va, size) && w.tree == q.tree && Queued(cfg, n0, w, {})
    requires size > 0 && Ps64Applicable(cfg, q) ==> MarksOk(cfg, w, q.tree, va)
    ensures var r := WalkFrom(cfg, q, w, va, size, target, i).0;
      Queued(cfg, n0, r, {}) && w.emitted <= r.emitted && r.tree == q.tree
    decreases size
  {
    hide PageVisit, WellFormed, Visited, LeafOf, LeafSize, BankAt, FitsIn, PageEnd, Queued, MarksOk, PathOut, Report;
    if size > 0 && !(q.mode.Clone? && i >= |q.infos|) {
      var v := PageVisit(cfg, q, w, va, size, target, InfoAt(q, i));
      TurnFacts(cfg, q, w, va, size, target, InfoAt(q, i));
      WalkTurn(cfg, q, w, va, size, target, i);
      PageVisitKeepsQueued(cfg, q, n0, w, va, size, target, InfoAt(q, i));
      if v.leaf.Some? {
        var step := PageStep(v.pageSize, va, size);
        ReportKeepsQueued(cfg, q, n0, v, va, size);
        WalkKeepsQueued(cfg, q, n0, Report(v, va, size, BankAt(q, va)), va + step, size - step, NextTarget(v, va, size), i + 1);
      }
    }
  }

  lemma {:induction false} SamePageSameTables(va: nat, x: nat, low: nat, l: nat)
    requires low <= l <= 5 && va / Span(low) == x / Span(low)
    ensures va / Span(l) == x / Span(l)
    decreases l
  {
    hide Span;
    if low < l {
      SamePageSameTables(va, x, low, l - 1);
      SpanStep(va, l - 1);
      SpanStep(x, l - 1);
    }
  }

  lemma PathHandledInPage(cfg: Config, q: Request, n0: Forest, w: Walk, va: nat, x: nat)
    requires ValidConfig(cfg) && WellFormed(cfg, w.nodes) && PathHandled(cfg, q, n0, w, va)
    requires var unit := LeafSize(w.nodes, LeafOf(cfg, w.nodes, q.tree, va).value); va / unit == x / unit
    ensures PathHandled(cfg, q, n0, w, x)
  {
    hide Handled, WellFormed, LeafSlot;
    SamePageSameLeaf(cfg, w.nodes, q.tree, va, x);
    var s := LeafOf(cfg, w.nodes, q.tree, va).value;
    PdeKind(cfg, w.nodes, TableSlot(q.tree, 1, va));
    if s.level != 1 { SamePdeSlot(va, x, LeafSize(w.nodes, s)); }
    var low := if s.level == 1 then 2 else 1;
    forall l | low <= l < cfg.levels ensures Handled(w, TableSlot(q.tree, l, x)) {
      SamePageSameTables(va, x, 1, l);
      assert Handled(w, TableSlot(q.tree, l, va));
    }
  }

  lemma PathHandledStays(cfg: Config, q: Request, n0: Forest, w: Walk, r: Walk, x: nat)
    requires cfg.levels <= 5 && PathHandled(cfg, q, n0, w, x)
    requires Queued(cfg, n0, w, {}) && Queued(cfg, n0, r, {}) && w.emitted <= r.emitted && w.nodes.Keys <= r.nodes.Keys
    requires LeafOf(cfg, r.nodes, q.tree, x) == LeafOf(cfg, w.nodes, q.tree, x)
    ensures PathHandled(cfg, q, n0, r, x)
  {
    hide Queued, LeafOf, Span;
    var s := LeafOf(cfg, w.nodes, q.tree, x).value;
    if Handled(w, s) { HandledStays(cfg, n0, w, r, s); }
    forall l | (if s.level == 1 then 2 else 1) <= l < cfg.levels ensures Handled(r, TableSlot(q.tree, l, x)) {
      assert Handled(w, TableSlot(q.tree, l, x));
      HandledStays(cfg, n0, w, r, TableSlot(q.tree, l, x));
    }
  }

  lemma {:induction false} WalkOnlyAdds(cfg: Config, q: Request, w: Walk, va: nat, size: nat, target: nat, i: nat)
    requires Sound(cfg, q, w.nodes) && FitsIn(cfg, va, size)
    ensures w.nodes.Keys <= WalkFrom(cfg, q, w, va, size, target, i).0.nodes.Keys
    decreases size
  {
    hide PageVisit, WellFormed, LeafOf, LeafSize, BankAt, FitsIn, GrowsOnPath, LeafFits, PageEnd;
    if size > 0 && !(q.mode.Clone? && i >= |q.infos|) {
      var v := PageVisit(cfg, q, w, va, size, target, InfoAt(q, i));
      TurnFacts(cfg, q, w, va, size, target, InfoAt(q, i));
      WalkTurn(cfg, q, w, va, size, target, i);
      if v.leaf.Some? {
        var step := PageStep(v.pageSize, va, size);
        WalkOnlyAdds(cfg, q, Report(v, va, size, BankAt(q, va)), va + step, size - step, NextTarget(v, va, size), i + 1);
      }
    }
  }

  /** Every byte of a completed walk has its whole path handled. */
  lemma {:induction false} WalkHandlesPaths(cfg: Config, q: Request, n0: Forest, w: Walk, va: nat, size: nat, target: nat, i: nat, x: nat)
    requires Sound(cfg, q, w.nodes) && FitsIn(cfg, va, size) && w.tree == q.tree && Queued(cfg, n0, w, {})
    requires size > 0 && Ps64Applicable(cfg, q) ==> MarksOk(cfg, w, q.tree, va)
    requires WalkFrom(cfg, q, w, va, size, target, i).1 == Completed && va <= x < va + size
    ensures PathHandled(cfg, q, n0, WalkFrom(cfg, q, w, va, size, target, i).0, x)
    decreases size
  {
    hide PageVisit, WellFormed, Grown, LeafFits, LeafOf, LeafSize, BankAt, FitsIn, PageEnd, Queued, MarksOk, PathOut, Report, PathHandled;
    if q.mode.Clone? && i >= |q.infos| {
      WalkOverrun(cfg, q, w, va, size, target, i);
    } else {
      var v := PageVisit(cfg, q, w, va, size, target, InfoAt(q, i));
      TurnFacts(cfg, q, w, va, size, target, InfoAt(q, i));
      WalkTurn(cfg, q, w, va, size, target, i);
      PageVisitKeepsQueued(cfg, q, n0, w, va, size, target, InfoAt(q, i));
      var step := PageStep(v.pageSize, va, size);
      var next := Report(v, va, size, BankAt(q, va));
      ReportKeepsQueued(cfg, q, n0, v, va, size);
      if va + step <= x {
        WalkHandlesPaths(cfg, q, n0, next, va + step, size - step, NextTarget(v, va, size), i + 1, x);
      } else {
        FirstPageHandled(cfg, q, n0, w, va, v, next, x);
        var r := WalkFrom(cfg, q, next, va + step, size - step, NextTarget(v, va, size), i + 1).0;
        WalkKeepsQueued(cfg, q, n0, next, va + step, size - step, NextTarget(v, va, size), i + 1);
        WalkOnlyAdds(cfg, q, next, va + step, size - step, NextTarget(v, va, size), i + 1);
        OtherLeafBefore(cfg, q, next, va + step, size - step, NextTarget(v, va, size), i + 1, q.tree, x, r);
        PathHasLeaf(cfg, q, n0, next, x);
        PathHandledStays(cfg, q, n0, next, r, x);
      }
    }
  }

  lemma PathHasLeaf(cfg: Config, q: Request, n0: Forest, w: Walk, x: nat)
    requires cfg.levels <= 5 && PathHandled(cfg, q, n0, w, x)
    ensures LeafOf(cfg, w.nodes, q.tree, x).Some?
  {
  }

  lemma FirstPageHandled(cfg: Config, q: Request, n0: Forest, w: Walk, va: nat, v: Visit, next: Walk, x: nat)
    requires ValidConfig(cfg) && Visited(cfg, q, w, va, v) && StreamedVisit(cfg, q, n0, w, va, v) && v.leaf.Some? && v.pageSize > 0
    requires va <= x && va % v.pageSize + (x - va) < v.pageSize
    requires next.nodes == v.w.nodes && next.emitted == v.w.emitted
    ensures PathHandled(cfg, q, n0, next, x)
  {
    hide Queued, MarksOk, LeafSize, LeafOf, Span, WellFormed, PathOut, Handled, PageEnd;
    VisitHandlesPath(cfg, q, n0, w, va, v);
    SamePage(va, x - va, v.pageSize);
    PathHandledInPage(cfg, q, n0, v.w, va, x);
    OnlyNodesMatter(cfg, q, n0, v.w, next, x);
  }

  lemma OnlyNodesMatter(cfg: Config, q: Request, n0: Forest, w: Walk, r: Walk, x: nat)
    requires cfg.levels <= 5 && PathHandled(cfg, q, n0, w, x) && r.nodes == w.nodes && r.emitted == w.emitted
    ensures PathHandled(cfg, q, n0, r, x)
  {
    hide LeafOf, Span;
    forall s | Handled(w, s) ensures Handled(r, s) {}
  }

  /** A walk starts with nothing queued. */
  lemma StartIsQueued(cfg: Config, tree: nat, nodes: Forest, mem: PhysicalMemory.Physical)
    ensures Queued(cfg, nodes, Start(tree, nodes, mem), {})
    ensures forall va :: MarksOk(cfg, Start(tree, nodes, mem), tree, va)
  {
  }

  /** A walk that maps nothing never queues a 2MB page that was there before it. */
  lemma {:induction false} LargePageNeverQueued(cfg: Config, q: Request, n0: Forest, w: Walk, va: nat, size: nat, target: nat, i: nat, s: Slot)
    requires Sound(cfg, q, w.nodes) && FitsIn(cfg, va, size) && w.tree == q.tree && Queued(cfg, n0, w, {})
    requires size > 0 && Ps64Applicable(cfg, q) ==> MarksOk(cfg, w, q.tree, va)
    requires !q.mapping && s in w.nodes && s.level == 1 && w.nodes[s].kind.Page2MB? && s !in w.emitted
    ensures s !in WalkFrom(cfg, q, w, va, size, target, i).0.emitted
    decreases size
  {
    hide PageVisit, WellFormed, GrowsOnPath, LeafFits, LeafOf, LeafSize, BankAt, FitsIn, PageEnd, Queued, MarksOk, PathOut, Report;
    if size > 0 && !(q.mode.Clone? && i >= |q.infos|) {
      var v := PageVisit(cfg, q, w, va, size, target, InfoAt(q, i));
      TurnFacts(cfg, q, w, va, size, target, InfoAt(q, i));
      WalkTurn(cfg, q, w, va, size, target, i);
      PageVisitKeepsQueued(cfg, q, n0, w, va, size, target, InfoAt(q, i));
      NodeKept(w.nodes, v.w.nodes, v.leaf, s);
      if v.leaf.Some? {
        var step := PageStep(v.pageSize, va, size);
        ReportKeepsQueued(cfg, q, n0, v, va, size);
        LargePageNeverQueued(cfg, q, n0, Report(v, va, size, BankAt(q, va)), va + step, size - step, NextTarget(v, va, size), i + 1, s);
      }
    }
  }
}
