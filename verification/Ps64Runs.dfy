/** Histories of 4KB mappings and frees, under any pausing: every PS64 mark is a kept promise between calls. */
module Ps64Runs {
  import opened Arithmetic
  import opened PageTables
  import opened PhysicalMemory
  import opened WalkModel
  import opened TreeFacts
  import opened WalkLookup
  import opened WalkStream
  import opened FrameOwnership
  import opened Streams
  import opened StreamCoherence
  import opened FreeModel
  import opened FreeFacts
  import opened FreeExact
  import opened System
  import opened Ps64Groups
  import opened Ps64Mapping
  import opened Ps64Lookahead
  import opened Ps64Freeing

  /** All lowest-level entries carry the same attribute bits. */
  ghost predicate UniformAll(cfg: Config, nodes: Forest, bits: nat) {
    forall s :: s in nodes && s.level == 0 ==> cfg.extraBits(nodes[s].attributes) == bits
  }

  lemma SmallVisitUniform(cfg: Config, q: Request, w: Walk, va: nat, size: nat, target: nat, v: Visit, w1: Walk, bits: nat)
    requires SmallVisit(cfg, q, w, va, size, target, v, w1) && UniformAll(cfg, w.nodes, bits) && cfg.extraBits(q.attributes) == bits
    requires Evolves(w.nodes, v.w.nodes, v.leaf) && Cursor(q, va) in v.w.nodes
    ensures UniformAll(cfg, v.w.nodes, bits)
  {
    hide Ps64Visit, WasGroup;
    var c := Cursor(q, va);
    Ps64VisitEvolves(cfg, w1, c, WasGroup(cfg, w.nodes, c), size);
    forall s | s in v.w.nodes && s.level == 0 ensures cfg.extraBits(v.w.nodes[s].attributes) == bits {
      assert s in w1.nodes;
      assert s == c || s in w.nodes;
    }
  }

  lemma OtherVisitUniform(cfg: Config, q: Request, w: Walk, v: Visit, bits: nat)
    requires OtherVisit(q, w, v) && UniformAll(cfg, w.nodes, bits) && cfg.extraBits(q.attributes) == bits
    ensures UniformAll(cfg, v.w.nodes, bits)
  {
  }

  lemma {:induction false} WalkKeepsUniform(cfg: Config, q: Request, w: Walk, va: nat, size: nat, target: nat, i: nat, bits: nat)
    requires Sound(cfg, q, w.nodes) && FitsIn(cfg, va, size) && Mapping4KB(cfg, q)
    requires UniformAll(cfg, w.nodes, bits) && cfg.extraBits(q.attributes) == bits
    ensures UniformAll(cfg, WalkFrom(cfg, q, w, va, size, target, i).0.nodes, bits)
    decreases size
  {
    hide PageVisit, WalkFrom, WellFormed, LeafOf, LeafSize, BankAt, FitsIn, LeafFits, GrowsOnPath, Evolves, NextTarget, UniformAll, Ps64Visit, WasGroup;
    if size == 0 {
      WalkOfNothing(cfg, q, w, va, target, i);
    } else {
      var v := PageVisit(cfg, q, w, va, size, target, InfoAt(q, i));
      TurnFacts(cfg, q, w, va, size, target, InfoAt(q, i));
      WalkTurn(cfg, q, w, va, size, target, i);
      if v.pageSize == PAGE_4KB {
        var w1 := PageVisitSmall(cfg, q, w, va, size, target, InfoAt(q, i));
        SmallVisitUniform(cfg, q, w, va, size, target, v, w1, bits);
      } else {
        PageVisitOther(cfg, q, w, va, size, target, InfoAt(q, i));
        OtherVisitUniform(cfg, q, w, v, bits);
      }
      var step := PageStep(v.pageSize, va, size);
      WalkKeepsUniform(cfg, q, Report(v, va, size, BankAt(q, va)), va + step, size - step, NextTarget(v, va, size), i + 1, bits);
    }
  }

  /** Waiting or not makes no difference to a mark. */
  lemma PendingIrrelevant(cfg: Config, a: Forest, b: Forest, bits: nat)
    requires b.Keys == a.Keys && forall s :: s in a ==> b[s] == a[s].(pending := b[s].pending)
    requires GroupsIntact(cfg, a) && UniformAll(cfg, a, bits)
    ensures GroupsIntact(cfg, b) && UniformAll(cfg, b, bits)
  {
    hide GroupComplete;
    forall s | s in b ensures MarkKept(cfg, b, s) {
      assert MarkKept(cfg, a, s);
      if s.level == 0 && b[s].ps64 {
        assert InGroup(s, s);
        GroupIgnoresMarks(cfg, a, b, s);
      }
    }
  }

  /** Calls that map 4KB pages from a 64KB boundary with the same attribute bits, frees, new trees and flags. */
  ghost predicate Mapper(cfg: Config, op: Op, bits: nat) {
    op.WalkTree? ==> Mapping4KB(cfg, op.q) && op.q.gfx % PAGE_64KB == 0 && cfg.extraBits(op.q.attributes) == bits
  }

  lemma WalkAloneKeepsGroups(cfg: Config, q: Request, nodes: Forest, mem: Physical, target: nat, bits: nat)
    requires Sound(cfg, q, nodes) && FitsIn(cfg, q.gfx, q.size) && Mapper(cfg, WalkTree(q, target), bits)
    requires GroupsIntact(cfg, nodes) && UniformAll(cfg, nodes, bits)
    ensures var w := WalkMemory(cfg, q, nodes, mem, target).0; GroupsIntact(cfg, w.nodes) && UniformAll(cfg, w.nodes, bits)
  {
    hide WellFormed, WalkFrom, FitsIn, GroupsIntact, UniformAll, Misjudged;
    AllUniformHere(cfg, q, nodes, bits);
    WholePages(q.gfx, q.gfx / PAGE_64KB);
    MappingKeepsGroupsExactly(cfg, q, nodes, mem, target);
    WalkKeepsUniform(cfg, q, Start(q.tree, nodes, mem), q.gfx, q.size, target, 0, bits);
  }

  lemma WalkStepKeepsGroups(cfg: Config, g: Layout, sys: System, q: Request, target: nat, bits: nat)
    requires Consistent(cfg, g, sys) && Allowed(cfg, sys, WalkTree(q, target)) && Mapper(cfg, WalkTree(q, target), bits)
    requires GroupsIntact(cfg, sys.nodes) && UniformAll(cfg, sys.nodes, bits)
    ensures var nodes := Step(cfg, sys, WalkTree(q, target)).nodes; GroupsIntact(cfg, nodes) && UniformAll(cfg, nodes, bits)
  {
    hide WellFormed, Sane, Queued, Commit, WalkMemory, BanksExist, FitsIn, AllCoherent, TablesKept, GroupsIntact, UniformAll;
    WalkStep(cfg, g, sys, q, target);
    var w := WalkMemory(cfg, q, sys.nodes, sys.mem, target).0;
    WalkAloneKeepsGroups(cfg, q, sys.nodes, sys.mem, target, bits);
    CommitClears(cfg, sys.nodes, sys.st, w);
    PendingIrrelevant(cfg, w.nodes, Step(cfg, sys, WalkTree(q, target)).nodes, bits);
  }

  lemma AllUniformHere(cfg: Config, q: Request, nodes: Forest, bits: nat)
    requires UniformAll(cfg, nodes, bits) && cfg.extraBits(q.attributes) == bits
    ensures Uniform(cfg, q, nodes, q.gfx, q.size)
  {
  }

  lemma StepKeepsGroups(cfg: Config, g: Layout, sys: System, op: Op, bits: nat)
    requires Consistent(cfg, g, sys) && Legal(cfg, sys, op) && Mapper(cfg, op, bits)
    requires GroupsIntact(cfg, sys.nodes) && UniformAll(cfg, sys.nodes, bits)
    ensures GroupsIntact(cfg, Step(cfg, sys, op).nodes) && UniformAll(cfg, Step(cfg, sys, op).nodes, bits)
  {
    hide WellFormed, Owned, ValidPhysical, FreeMemory, WalkMemory, Commit, Mapped, SparesTables, BanksExist, FreeCommit, PhysicalMemory.Reserve, Coherent,
         FreeInv, Mapper, GroupOk;
    match op {
      case NewTree(tree, bank) =>
        RootAddsNoMark(cfg, sys.nodes, Step(cfg, sys, op).nodes, Root(cfg, tree), bits);
      case WalkTree(q, target) =>
        WalkStepKeepsGroups(cfg, g, sys, q, target, bits);
      case FreeRange(tree, va, size) =>
        FreeStep(cfg, g, sys, tree, va, size);
        var f := FreeMemory(cfg, sys.nodes, sys.mem, tree, va, size).0;
        InvParts(cfg, g, sys.nodes, sys.mem, f);
        FreeKeepsGroups(cfg, g, sys.nodes, sys.mem, tree, va, size);
      case _ =>
    }
  }

  lemma RootAddsNoMark(cfg: Config, a: Forest, b: Forest, r: Slot, bits: nat)
    requires ValidConfig(cfg) && r == Root(cfg, r.tree) && r !in a && r in b && b == a[r := b[r]] && WellFormed(cfg, a)
    requires GroupsIntact(cfg, a) && UniformAll(cfg, a, bits)
    ensures GroupsIntact(cfg, b) && UniformAll(cfg, b, bits)
  {
    hide WellFormed, GroupOk;
    forall s | s in b ensures MarkKept(cfg, b, s) {
      if s.level == 0 && b[s].ps64 {
        assert MarkKept(cfg, a, s);
        WholeGroupKept(cfg, a, b, s);
      }
    }
  }

  /** Over every such history, marked entries come in whole groups of sixteen. */
  lemma {:induction false} RunKeepsGroups(cfg: Config, g: Layout, sys: System, ops: seq<Op>, bits: nat)
    requires Consistent(cfg, g, sys) && GroupsIntact(cfg, sys.nodes) && UniformAll(cfg, sys.nodes, bits)
    requires forall op :: op in ops ==> (op.WalkTree? ==> op.q.pageSize > 0) && Mapper(cfg, op, bits)
    requires LegalRun(cfg, sys, ops) && WithinWindows(RunOps(cfg, sys, ops).mem, g)
    ensures GroupsIntact(cfg, RunOps(cfg, sys, ops).nodes)
    decreases |ops|
  {
    hide WellFormed, Sane, Legal, TableSafe, Step, WithinWindows, AllCoherent, GroupsIntact, UniformAll, Mapper;
    if ops != [] {
      var sys1 := Step(cfg, sys, ops[0]);
      LegalIsTableSafe(cfg, sys, ops[0]);
      StepGrows(cfg, g, sys, ops[0]);
      RunGrows(cfg, g, sys1, ops[1..]);
      WindowsInherited(sys1.mem, RunOps(cfg, sys1, ops[1..]).mem, g);
      StepKeepsConsistent(cfg, g, sys, ops[0]);
      StepKeepsGroups(cfg, g, sys, ops[0], bits);
      RunKeepsGroups(cfg, g, sys1, ops[1..], bits);
    }
  }
}
