/** Walking again over what has been walked and committed changes nothing and streams nothing. */
module Rewalk {
  import opened Wrappers
  import opened Arithmetic
  import opened PageTables
  import opened PhysicalMemory
  import opened WalkModel
  import opened TreeFacts
  import opened WalkLookup
  import opened WalkStream
  import opened WalkStreamed
  import opened FrameOwnership
  import opened Streams
  import opened StreamCoherence
  import opened System
  import opened DecodedWalks

  /** Mapped, and nothing above the address waits to be written; a 2MB page itself may. */
  ghost predicate PathQuiet(cfg: Config, nodes: Forest, tree: nat, x: nat)
    requires cfg.levels <= 5
  {
    && LeafOf(cfg, nodes, tree, x).Some?
    && var s := LeafOf(cfg, nodes, tree, x).value;
       && (forall l :: (if s.level == 1 then 2 else 1) <= l < cfg.levels ==>
             TableSlot(tree, l, x) in nodes && !nodes[TableSlot(tree, l, x)].pending)
       && (s.level == 0 ==> !nodes[s].pending)
  }

  /** A walk that looks things up or reserves, and has no PS64 groups to check. */
  predicate Plain64(cfg: Config, q: Request) {
    q.pageSize > 0 && !q.mapping && !q.mode.Clone? && !Ps64Applicable(cfg, q)
  }

  lemma QuietVisit(cfg: Config, w: Walk, s: Slot)
    requires s in w.nodes && s.level < 5 && !w.nodes[s].pending
    ensures PlainVisit(cfg, w, s, false) == w
  {
  }

  lemma {:induction false} QuietDown(cfg: Config, q: Request, w: Walk, va: nat, level: nat)
    requires cfg.levels <= 5 && level < cfg.levels && level <= 4 && Plain64(cfg, q) && PathQuiet(cfg, w.nodes, q.tree, va)
    ensures TablesDown(cfg, q, w, va, level) == (w, true)
    decreases level
  {
    hide LeafOf, Span, PlainVisit;
    if level >= 2 {
      QuietVisit(cfg, w, TableSlot(q.tree, level, va));
      QuietDown(cfg, q, w, va, level - 1);
    }
  }

  lemma QuietPage(cfg: Config, q: Request, w: Walk, va: nat, size: nat, target: nat, info: PageInfo)
    requires Ready(cfg, q, w.nodes, va) && Plain64(cfg, q) && PathQuiet(cfg, w.nodes, q.tree, va)
    ensures PageVisit(cfg, q, w, va, size, target, info).w == w
  {
    hide TablesDown, Span, WellFormed, LeafSlot, PlainVisit, BankAt;
    QuietDown(cfg, q, w, va, cfg.levels - 1);
    var p := TableSlot(q.tree, 1, va);
    if !w.nodes[p].kind.Page2MB? {
      var s := LeafSlot(cfg, q.tree, w.nodes[p].kind, va);
      LeafSlotLevel(cfg, q.tree, w.nodes[p].kind, va);
      QuietVisit(cfg, w, p);
      QuietVisit(cfg, w, s);
      assert PlaceLeaf(q, w, s, Page, PteSize(w.nodes[p].kind), BankAt(q, va), target, info) == w;
    }
  }

  lemma {:induction false} QuietWalk(cfg: Config, q: Request, w: Walk, va: nat, size: nat, target: nat, i: nat)
    requires Sound(cfg, q, w.nodes) && FitsIn(cfg, va, size) && Plain64(cfg, q)
    requires forall x :: va <= x < va + size ==> PathQuiet(cfg, w.nodes, q.tree, x)
    ensures var (r, ending) := WalkFrom(cfg, q, w, va, size, target, i); ending == Completed && r == w.(entries := r.entries)
    decreases size
  {
    hide PageVisit, WalkFrom, WellFormed, LeafOf, LeafSize, BankAt, FitsIn, Grown, LeafFits, PathQuiet, NextTarget;
    if size == 0 {
      WalkOfNothing(cfg, q, w, va, target, i);
    } else {
      var v := PageVisit(cfg, q, w, va, size, target, InfoAt(q, i));
      TurnFacts(cfg, q, w, va, size, target, InfoAt(q, i));
      WalkTurn(cfg, q, w, va, size, target, i);
      QuietPage(cfg, q, w, va, size, target, InfoAt(q, i));
      QuietHasLeaf(cfg, w.nodes, q.tree, va);
      var step := PageStep(v.pageSize, va, size);
      QuietWalk(cfg, q, Report(v, va, size, BankAt(q, va)), va + step, size - step, NextTarget(v, va, size), i + 1);
    }
  }

  lemma QuietHasLeaf(cfg: Config, nodes: Forest, tree: nat, x: nat)
    requires cfg.levels <= 5 && PathQuiet(cfg, nodes, tree, x)
    ensures LeafOf(cfg, nodes, tree, x).Some?
  {
  }

  /** Whatever a committed walk visited is quiet afterwards. */
  lemma QuietAfterCommit(cfg: Config, q: Request, n0: Forest, w: Walk, st: Stream, x: nat)
    requires ValidConfig(cfg) && w.tree == q.tree && Committed(st) && Queued(cfg, n0, w, {}) && PathHandled(cfg, q, n0, w, x)
    ensures PathQuiet(cfg, Commit(cfg, st, w).1, q.tree, x)
  {
    hide Queued, Commit, LeafOf, Span;
    CommitClears(cfg, n0, st, w);
    CommitKeepsLeaf(cfg, w.nodes, Commit(cfg, st, w).1, q.tree, x);
    var s := LeafOf(cfg, w.nodes, q.tree, x).value;
    forall l | (if s.level == 1 then 2 else 1) <= l < cfg.levels
      ensures var nodes := Commit(cfg, st, w).1; TableSlot(q.tree, l, x) in nodes && !nodes[TableSlot(q.tree, l, x)].pending {
      assert Handled(w, TableSlot(q.tree, l, x));
    }
  }

  lemma WalkedIsQuiet(cfg: Config, g: Layout, sys: System, q: Request, target: nat, x: nat)
    requires ValidConfig(cfg) && WellFormed(cfg, sys.nodes) && Sane(sys.nodes, sys.mem, g, Tables) && Allowed(cfg, sys, WalkTree(q, target))
    requires Committed(sys.st) && !q.mode.Expect? && q.gfx <= x < q.gfx + q.size
    requires WalkMemory(cfg, q, sys.nodes, sys.mem, target).1 == Completed
    ensures PathQuiet(cfg, Step(cfg, sys, WalkTree(q, target)).nodes, q.tree, x)
  {
    hide WellFormed, Sane, Queued, Commit, WalkFrom, BanksExist, TablesKept, MarksOk, PathHandled, PathQuiet, FitsIn;
    WalkStep(cfg, g, sys, q, target);
    var w := WalkMemory(cfg, q, sys.nodes, sys.mem, target).0;
    StartIsQueued(cfg, q.tree, sys.nodes, sys.mem);
    WalkHandlesPaths(cfg, q, sys.nodes, Start(q.tree, sys.nodes, sys.mem), q.gfx, q.size, target, 0, x);
    QuietAfterCommit(cfg, q, sys.nodes, w, sys.st, x);
  }

  lemma NothingToCommit(cfg: Config, st: Stream, w: Walk)
    requires w.table == [[], [], [], [], []] && w.pendingNodes == [[], [], [], [], []]
    ensures Commit(cfg, st, w) == (st, w.nodes)
  {
    var local := RootLocal(cfg, w.nodes, w.tree);
    assert WriteEntries(st, local, []) == st;
  }

  /** A second walk inside a range just walked and committed (with no PS64 groups to check, and nothing to map) completes,
      leaves the whole system as it is, and reports what the tables already say. */
  lemma RewalkChangesNothing(cfg: Config, g: Layout, sys: System, q: Request, target: nat, again: Request, target': nat)
    requires ValidConfig(cfg) && WellFormed(cfg, sys.nodes) && Sane(sys.nodes, sys.mem, g, Tables) && Allowed(cfg, sys, WalkTree(q, target))
    requires Committed(sys.st) && !q.mode.Expect? && WalkMemory(cfg, q, sys.nodes, sys.mem, target).1 == Completed
    requires again.tree == q.tree && Plain64(cfg, again) && q.gfx <= again.gfx && again.gfx + again.size <= q.gfx + q.size
    ensures var sys1 := Step(cfg, sys, WalkTree(q, target)); var (w, ending) := WalkMemory(cfg, again, sys1.nodes, sys1.mem, target');
      && ending == Completed && Step(cfg, sys1, WalkTree(again, target')) == sys1
      && w.table == [[], [], [], [], []] && w.pages64KB == []
      && Runs(w.entries) == Pages(cfg, sys1.nodes, q.tree, again.gfx, again.size)
  {
    hide WellFormed, Sane, Commit, WalkFrom, BanksExist, PathQuiet, FitsIn, Runs, Pages, Mapped;
    var sys1 := Step(cfg, sys, WalkTree(q, target));
    StepGrows(cfg, g, sys, WalkTree(q, target));
    RootStays(cfg, g, sys, q, target);
    Inside(cfg, q, again);
    var w0 := Start(again.tree, sys1.nodes, sys1.mem);
    forall x | again.gfx <= x < again.gfx + again.size ensures PathQuiet(cfg, w0.nodes, again.tree, x) {
      WalkedIsQuiet(cfg, g, sys, q, target, x);
    }
    QuietWalk(cfg, again, w0, again.gfx, again.size, target', 0);
    var w := WalkMemory(cfg, again, sys1.nodes, sys1.mem, target').0;
    NothingToCommit(cfg, sys1.st, w);
    WalkMatchesLookup(cfg, again, w0, again.gfx, again.size, target', 0);
    assert Runs(w0.entries) == [] by { NoRuns(w0); }
  }

  lemma NoRuns(w: Walk)
    requires w.entries == []
    ensures Runs(w.entries) == []
  {
  }

  lemma Inside(cfg: Config, q: Request, again: Request)
    requires FitsIn(cfg, q.gfx, q.size) && again.gfx + again.size <= q.gfx + q.size
    ensures FitsIn(cfg, again.gfx, again.size)
  {
  }

  lemma RootStays(cfg: Config, g: Layout, sys: System, q: Request, target: nat)
    requires ValidConfig(cfg) && WellFormed(cfg, sys.nodes) && Sane(sys.nodes, sys.mem, g, Tables) && Allowed(cfg, sys, WalkTree(q, target))
    ensures Root(cfg, q.tree) in Step(cfg, sys, WalkTree(q, target)).nodes
  {
    hide WellFormed, Sane, Commit, WalkMemory, BanksExist, FitsIn, Queued;
    WalkStep(cfg, g, sys, q, target);
    CommitClears(cfg, sys.nodes, sys.st, WalkMemory(cfg, q, sys.nodes, sys.mem, target).0);
  }

  /** In particular a repeated walk reports the same pages: addresses, sizes and locality. */
  lemma RepeatedWalkReportsTheSame(cfg: Config, g: Layout, sys: System, q: Request)
    requires ValidConfig(cfg) && WellFormed(cfg, sys.nodes) && Sane(sys.nodes, sys.mem, g, Tables) && Allowed(cfg, sys, WalkTree(q, 0))
    requires Committed(sys.st) && q.mode.Reserve? && Plain64(cfg, q)
    ensures var sys1 := Step(cfg, sys, WalkTree(q, 0));
      Runs(WalkMemory(cfg, q, sys1.nodes, sys1.mem, 0).0.entries) == Runs(WalkMemory(cfg, q, sys.nodes, sys.mem, 0).0.entries)
  {
    hide WellFormed, Sane, Commit, WalkFrom, BanksExist, FitsIn, Runs, Pages, Queued;
    var w0 := Start(q.tree, sys.nodes, sys.mem);
    WalkMatchesLookup(cfg, q, w0, q.gfx, q.size, 0, 0);
    RewalkChangesNothing(cfg, g, sys, q, 0, q, 0);
    NoRuns(w0);
    WalkStep(cfg, g, sys, q, 0);
    var w := WalkMemory(cfg, q, sys.nodes, sys.mem, 0).0;
    CommitClears(cfg, sys.nodes, sys.st, w);
    CommitKeepsPages(cfg, w.nodes, Step(cfg, sys, WalkTree(q, 0)).nodes, q.tree, q.gfx, q.size);
  }

  lemma {:induction false} CommitKeepsPages(cfg: Config, a: Forest, b: Forest, tree: nat, va: nat, size: nat)
    requires b.Keys == a.Keys && forall s :: s in a ==> b[s].kind == a[s].kind && b[s].phys == a[s].phys && b[s].bank == a[s].bank
    ensures Pages(cfg, a, tree, va, size) == Pages(cfg, b, tree, va, size)
    decreases size
  {
    hide LeafOf, LeafSize, PageStep;
    if size > 0 {
      CommitKeepsLeaf(cfg, a, b, tree, va);
      match LeafOf(cfg, a, tree, va) {
        case None =>
        case Some(s) =>
          var step := PageStep(LeafSize(a, s), va, size);
          SizeByKinds(a, b, s);
          CommitKeepsPages(cfg, a, b, tree, va + step, size - step);
      }
    }
  }

  lemma SizeByKinds(a: Forest, b: Forest, s: Slot)
    requires b.Keys == a.Keys && forall x :: x in a ==> b[x].kind == a[x].kind
    ensures LeafSize(b, s) == LeafSize(a, s)
  {
  }
}
