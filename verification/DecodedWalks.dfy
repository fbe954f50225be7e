/** After a committed walk, the streamed tables alone translate every byte it visited. */
module DecodedWalks {
  import opened Wrappers
  import opened Arithmetic
  import opened PageTables
  import opened PhysicalMemory
  import opened WalkModel
  import opened TreeFacts
  import opened WalkLookup
  import opened WalkStream
  import opened WalkStreamed
  import opened FrameOwnership
  import opened Streams
  import opened StreamCoherence
  import opened TableDecoder
  import opened System

  /** The one case the walk passes over: it maps nothing and meets a 2MB page still waiting from a paused stream. */
  predicate PassedOver(cfg: Config, nodes: Forest, q: Request, x: nat) {
    !q.mapping && match LeafOf(cfg, nodes, q.tree, x)
      case None => false
      case Some(s) => s.level == 1 && nodes[s].pending
  }

  lemma SettledAfterCommit(cfg: Config, q: Request, n0: Forest, w: Walk, st: Stream, x: nat)
    requires ValidConfig(cfg) && WellFormed(cfg, n0) && WellFormed(cfg, w.nodes) && w.tree == q.tree && Committed(st)
    requires Queued(cfg, n0, w, {}) && TablesKept(n0, w.nodes) && PathHandled(cfg, q, n0, w, x) && !PassedOver(cfg, n0, q, x)
    ensures PathSettled(cfg, Commit(cfg, st, w).1, q.tree, x)
  {
    hide WellFormed, Queued, Commit, LeafSlot, TablesKept;
    CommitClears(cfg, n0, st, w);
    var nodes := Commit(cfg, st, w).1;
    var s := LeafOf(cfg, w.nodes, q.tree, x).value;
    CommitKeepsLeaf(cfg, w.nodes, nodes, q.tree, x);
    if !Handled(w, s) { LeafWasLarge(cfg, n0, w.nodes, q.tree, x, s); }
    assert Handled(w, s);
    PdeKind(cfg, w.nodes, TableSlot(q.tree, 1, x));
    LeafSlotLevel(cfg, q.tree, w.nodes[TableSlot(q.tree, 1, x)].kind, x);
    forall l | 1 <= l < cfg.levels ensures TableSlot(q.tree, l, x) in nodes && !nodes[TableSlot(q.tree, l, x)].pending {
      if l >= 2 || s.level != 1 { assert Handled(w, TableSlot(q.tree, l, x)); } else { assert s == TableSlot(q.tree, l, x); }
    }
  }

  lemma CommitKeepsLeaf(cfg: Config, nodes: Forest, nodes': Forest, tree: nat, x: nat)
    requires nodes'.Keys == nodes.Keys
    requires forall s :: s in nodes ==> nodes'[s].kind == nodes[s].kind
    ensures LeafOf(cfg, nodes', tree, x) == LeafOf(cfg, nodes, tree, x)
  {
    hide LeafSlot;
  }

  lemma LeafWasLarge(cfg: Config, n0: Forest, nodes: Forest, tree: nat, x: nat, s: Slot)
    requires LeafOf(cfg, nodes, tree, x) == Some(s) && s.level == 1 && s in n0 && TablesKept(n0, nodes)
    ensures LeafOf(cfg, n0, tree, x) == Some(s)
  {
    hide LeafSlot;
    LeafSlotLevel(cfg, tree, nodes[TableSlot(tree, 1, x)].kind, x);
  }

  /** A page passed over is still waiting afterwards. */
  lemma PassedOverStaysPending(cfg: Config, g: Layout, sys: System, q: Request, target: nat, x: nat)
    requires Consistent(cfg, g, sys) && Allowed(cfg, sys, WalkTree(q, target)) && PassedOver(cfg, sys.nodes, q, x) && !q.mode.Expect?
    ensures var nodes := Step(cfg, sys, WalkTree(q, target)).nodes; var s := LeafOf(cfg, sys.nodes, q.tree, x).value;
      s in nodes && nodes[s].pending
  {
    hide WellFormed, Sane, Queued, Commit, WalkFrom, BanksExist, FitsIn, AllCoherent, LeafSlot, TablesKept, MarksOk;
    var s := LeafOf(cfg, sys.nodes, q.tree, x).value;
    WalkStep(cfg, g, sys, q, target);
    var w := WalkMemory(cfg, q, sys.nodes, sys.mem, target).0;
    StartIsQueued(cfg, q.tree, sys.nodes, sys.mem);
    PdeKind(cfg, sys.nodes, TableSlot(q.tree, 1, x));
    LeafSlotLevel(cfg, q.tree, sys.nodes[TableSlot(q.tree, 1, x)].kind, x);
    LargePageNeverQueued(cfg, q, sys.nodes, Start(q.tree, sys.nodes, sys.mem), q.gfx, q.size, target, 0, s);
    TableKept(sys.nodes, w.nodes, s);
    if !w.nodes[s].pending { QuietFacts(cfg, sys.nodes, w, s); }
    CommitClears(cfg, sys.nodes, sys.st, w);
  }

  lemma TableKept(nodes: Forest, nodes': Forest, s: Slot)
    requires TablesKept(nodes, nodes') && s in nodes
    ensures s in nodes'
  {
  }

  /** For every byte of a completed walk on a fully committed stream, each sink on its own decodes to what the tree says,
      exactly unless the byte lies in a page passed over, whose entry is then still unwritten. */
  lemma CommittedWalkDecodes(cfg: Config, g: Layout, sys: System, q: Request, target: nat, x: nat)
    requires Consistent(cfg, g, sys) && Allowed(cfg, sys, WalkTree(q, target)) && !q.mode.Expect? && Committed(sys.st)
    requires WithinWindows(Step(cfg, sys, WalkTree(q, target)).mem, g)
    requires WalkMemory(cfg, q, sys.nodes, sys.mem, target).1 == Completed && q.gfx <= x < q.gfx + q.size
    ensures var sys' := Step(cfg, sys, WalkTree(q, target));
      && (PathSettled(cfg, sys'.nodes, q.tree, x) <==> !PassedOver(cfg, sys.nodes, q, x))
      && Root(cfg, q.tree) in sys'.nodes
      && (!PassedOver(cfg, sys.nodes, q, x) ==>
            && Translate(cfg, sys'.nodes, q.tree, x).Some?
            && forall sink :: sink in Sinks(sys'.st) ==>
                 DecodeRoot(cfg, sink, sys'.nodes, q.tree, x) == Translate(cfg, sys'.nodes, q.tree, x))
  {
    hide WellFormed, Sane, Queued, Commit, WalkFrom, BanksExist, Coherent, LeafOf, TablesKept, MarksOk, WithinWindows,
         PathHandled, LeafSize, Decode, Handled;
    WalkKeepsConsistent(cfg, g, sys, q, target);
    WalkStep(cfg, g, sys, q, target);
    var w := WalkMemory(cfg, q, sys.nodes, sys.mem, target).0;
    StartIsQueued(cfg, q.tree, sys.nodes, sys.mem);
    WalkHandlesPaths(cfg, q, sys.nodes, Start(q.tree, sys.nodes, sys.mem), q.gfx, q.size, target, 0, x);
    CommitClears(cfg, sys.nodes, sys.st, w);
    var sys' := Step(cfg, sys, WalkTree(q, target));
    if PassedOver(cfg, sys.nodes, q, x) {
      PassedOverStaysPending(cfg, g, sys, q, target, x);
      PassedOverNotSettled(cfg, q, sys.nodes, w.nodes, sys'.nodes, x);
    } else {
      SettledAfterCommit(cfg, q, sys.nodes, w, sys.st, x);
      forall sink | sink in Sinks(sys'.st)
        ensures DecodeRoot(cfg, sink, sys'.nodes, q.tree, x) == Translate(cfg, sys'.nodes, q.tree, x) {
        DecodeRootFinds(cfg, sys'.nodes, sink, q.tree, x);
      }
    }
  }

  lemma PassedOverNotSettled(cfg: Config, q: Request, n0: Forest, n1: Forest, nodes: Forest, x: nat)
    requires cfg.levels <= 5 && PassedOver(cfg, n0, q, x) && TablesKept(n0, n1) && nodes.Keys == n1.Keys
    requires forall s :: s in n1 ==> nodes[s].kind == n1[s].kind
    requires nodes[LeafOf(cfg, n0, q.tree, x).value].pending
    ensures !PathSettled(cfg, nodes, q.tree, x)
  {
    hide LeafSlot;
    LeafSlotLevel(cfg, q.tree, n0[TableSlot(q.tree, 1, x)].kind, x);
  }
}
