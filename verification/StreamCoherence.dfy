/** The streamed entries are a cache of the tree, and committing a walk keeps them coherent in every sink. */
module StreamCoherence {
  import opened Wrappers
  import opened Arithmetic
  import opened PageTables
  import opened PhysicalMemory
  import opened WalkModel
  import opened TreeFacts
  import opened WalkLookup
  import opened WalkStream
  import opened WalkStreamed
  import opened FrameOwnership
  import opened Streams
  import FrameAllocator

  /** Tables are never moved. */
  ghost predicate TablesKept(nodes: Forest, nodes': Forest) {
    forall s :: s in nodes ==>
      (s in nodes' && nodes'[s].kind == nodes[s].kind
       && (IsTable(nodes[s].kind) ==> nodes'[s].phys == nodes[s].phys && nodes'[s].bank == nodes[s].bank))
  }

  lemma {:induction false} WalkKeepsTables(cfg: Config, q: Request, w: Walk, va: nat, size: nat, target: nat, i: nat)
    requires Sound(cfg, q, w.nodes) && FitsIn(cfg, va, size)
    ensures TablesKept(w.nodes, WalkFrom(cfg, q, w, va, size, target, i).0.nodes)
    decreases size
  {
    hide PageVisit, WellFormed, LeafOf, LeafSize, BankAt, FitsIn, GrowsOnPath, PageEnd, Report;
    if size > 0 && !(q.mode.Clone? && i >= |q.infos|) {
      var v := PageVisit(cfg, q, w, va, size, target, InfoAt(q, i));
      TurnFacts(cfg, q, w, va, size, target, InfoAt(q, i));
      WalkTurn(cfg, q, w, va, size, target, i);
      VisitKeepsTables(cfg, q, w, va, v);
      if v.leaf.Some? {
        var step := PageStep(v.pageSize, va, size);
        WalkKeepsTables(cfg, q, Report(v, va, size, BankAt(q, va)), va + step, size - step, NextTarget(v, va, size), i + 1);
      }
    }
  }

  lemma VisitKeepsTables(cfg: Config, q: Request, w: Walk, va: nat, v: Visit)
    requires Visited(cfg, q, w, va, v)
    ensures TablesKept(w.nodes, v.w.nodes)
  {
    hide WellFormed, LeafOf, LeafSize, GrowsOnPath;
  }

  // ---- locations ----

  lemma LocationKept(cfg: Config, nodes: Forest, nodes': Forest, s: Slot)
    requires ValidConfig(cfg) && WellFormed(cfg, nodes) && TablesKept(nodes, nodes') && s in nodes && s.level < cfg.levels
    requires Root(cfg, s.tree) in nodes
    ensures LocationOf(cfg, nodes', s) == LocationOf(cfg, nodes, s)
  {
    assert Placed(cfg, nodes, s) && Placed(cfg, nodes, Root(cfg, s.tree));
  }

  ghost predicate RootsPresent(cfg: Config, nodes: Forest) {
    forall s :: s in nodes ==> Root(cfg, s.tree) in nodes
  }

  /** Table banks agree all the way to the root. */
  lemma {:induction false} TableBank(cfg: Config, nodes: Forest, s: Slot)
    requires ValidConfig(cfg) && WellFormed(cfg, nodes) && s in nodes && IsTable(nodes[s].kind)
    ensures Root(cfg, s.tree) in nodes && nodes[s].bank == nodes[Root(cfg, s.tree)].bank
    decreases cfg.levels - s.level
  {
    assert Placed(cfg, nodes, s);
    if s.level < cfg.levels { TableBank(cfg, nodes, Parent(s)); }
  }

  lemma ParentTable(cfg: Config, nodes: Forest, s: Slot)
    requires WellFormed(cfg, nodes) && s in nodes && s.level < cfg.levels
    ensures Parent(s) in nodes && IsTable(nodes[Parent(s)].kind)
  {
    assert Placed(cfg, nodes, s);
  }

  /** Disjoint table frames put every table entry at a location of its own. */
  lemma FramesGiveSlotsApart(cfg: Config, nodes: Forest, mem: Physical, g: Layout)
    requires ValidConfig(cfg) && WellFormed(cfg, nodes) && Sane(nodes, mem, g, Tables) && WithinWindows(mem, g)
    ensures SlotsApart(cfg, nodes)
  {
    hide WellFormed, Sane, WithinWindows, LocationOf;
    forall s, t | s in nodes && t in nodes && s != t && s.level < cfg.levels && t.level < cfg.levels
      ensures LocationOf(cfg, nodes, s) != LocationOf(cfg, nodes, t) {
      TwoSlotsApart(cfg, nodes, mem, g, s, t);
    }
  }

  lemma TwoSlotsApart(cfg: Config, nodes: Forest, mem: Physical, g: Layout, s: Slot, t: Slot)
    requires ValidConfig(cfg) && WellFormed(cfg, nodes) && Sane(nodes, mem, g, Tables) && WithinWindows(mem, g)
    requires s in nodes && t in nodes && s != t && s.level < cfg.levels && t.level < cfg.levels
    ensures LocationOf(cfg, nodes, s) != LocationOf(cfg, nodes, t)
  {
    hide WellFormed, Sane, WithinWindows, ArenaOf, FrameAllocator.Disjoint;
    var p, u := Parent(s), Parent(t);
    ParentTable(cfg, nodes, s);
    ParentTable(cfg, nodes, t);
    TableBank(cfg, nodes, p);
    TableBank(cfg, nodes, u);
    if p == u {
      assert s.num % 512 != t.num % 512;
    } else if RootLocal(cfg, nodes, s.tree) == RootLocal(cfg, nodes, t.tree) {
      TableFrameSize(nodes, mem, g, Tables, p);
      TableFrameSize(nodes, mem, g, Tables, u);
      SameMemorySameArenas(mem, nodes[p].bank, nodes[u].bank);
      OwnedFramesDisjoint(nodes, mem, g, Tables, p, u);
      FarApart(FrameOf(nodes[p]), FrameOf(nodes[u]), s.num % 512, t.num % 512);
    }
  }

  lemma TableFrameSize(nodes: Forest, mem: Physical, g: Layout, who: Owners, s: Slot)
    requires Sane(nodes, mem, g, who) && s in nodes && IsTable(nodes[s].kind)
    ensures nodes[s].reserved == PAGE_4KB
  {
    assert HoldsFrame(nodes, mem, who, s);
  }

  lemma SameMemorySameArenas(mem: Physical, a: nat, b: nat)
    requires (a != 0) == (b != 0)
    ensures (ArenaOf(|mem|, a) == 0) == (ArenaOf(|mem|, b) == 0)
  {
  }

  lemma FarApart(b: FrameAllocator.Block, c: FrameAllocator.Block, i: nat, j: nat)
    requires FrameAllocator.Disjoint(b, c) && b.size == PAGE_4KB && c.size == PAGE_4KB && i < 512 && j < 512
    ensures b.addr + i * 8 != c.addr + j * 8
  {
  }

  // ---- one sink, one walk ----

  lemma QueuedGoesTo(cfg: Config, n0: Forest, w: Walk, l: nat, s: Slot)
    requires l < 5 && ValidConfig(cfg) && WellFormed(cfg, w.nodes) && Queued(cfg, n0, w, {}) && SlotsApart(cfg, w.nodes)
    requires s in w.nodes && s.level < cfg.levels
    ensures GoesTo(w.table[l], RootLocal(cfg, w.nodes, w.tree), s, LocationOf(cfg, w.nodes, s))
    ensures l != s.level ==> Last(w.table[l], s) == None
  {
    hide QuietOk, EmittedOk, PendingOk, ListsOk, EntryAddress, RootLocal, WellFormed;
    forall i | 0 <= i < |w.table[l]|
      ensures Location(RootLocal(cfg, w.nodes, w.tree), w.table[l][i].address) == LocationOf(cfg, w.nodes, s) <==> w.table[l][i].slot == s
      ensures w.table[l][i].slot.level == l
    {
      var t := w.table[l][i].slot;
      assert Hangs(w, t);
      HangingBelowRoot(cfg, w, t);
      assert LocationOf(cfg, w.nodes, t) == Location(RootLocal(cfg, w.nodes, w.tree), w.table[l][i].address);
    }
    if l != s.level { NothingForOtherLevels(w.table[l], l, s); }
  }

  lemma HangingBelowRoot(cfg: Config, w: Walk, s: Slot)
    requires WellFormed(cfg, w.nodes) && Hangs(w, s)
    ensures s.level < cfg.levels
  {
    assert Placed(cfg, w.nodes, s) && Placed(cfg, w.nodes, Parent(s));
  }

  lemma {:induction false} NothingForOtherLevels(list: seq<PageEntryInfo>, l: nat, s: Slot)
    requires forall i :: 0 <= i < |list| ==> list[i].slot.level == l
    requires l != s.level
    ensures Last(list, s) == None
    decreases |list|
  {
    if list != [] {
      assert list[|list| - 1].slot.level == l;
      NothingForOtherLevels(list[..|list| - 1], l, s);
    }
  }

  /** A sink that took every level holds, for a slot, the last value queued for it, or what it held before. */
  lemma SinkAfterWalk(cfg: Config, n0: Forest, w: Walk, sink: Sink, s: Slot)
    requires ValidConfig(cfg) && WellFormed(cfg, w.nodes) && Queued(cfg, n0, w, {}) && SlotsApart(cfg, w.nodes)
    requires s in w.nodes && s.level < cfg.levels
    ensures var r := StoreLevels(sink, RootLocal(cfg, w.nodes, w.tree), w.table, 5); var at := LocationOf(cfg, w.nodes, s);
      if LastQueued(w, s) == None then (at in r <==> at in sink) && (at in sink ==> r[at] == sink[at])
      else at in r && r[at] == LastQueued(w, s).value
  {
    hide Queued, SlotsApart, WellFormed, GoesTo, Last, StoreLevels, LocationOf, RootLocal;
    forall l | 0 <= l < 5
      ensures GoesTo(w.table[l], RootLocal(cfg, w.nodes, w.tree), s, LocationOf(cfg, w.nodes, s)) && (l != s.level ==> Last(w.table[l], s) == None) {
      QueuedGoesTo(cfg, n0, w, l, s);
    }
    StoreLevelsKeepsLast(sink, RootLocal(cfg, w.nodes, w.tree), w.table, 5, s, LocationOf(cfg, w.nodes, s));
  }

  /** A sink that took the walk is coherent with the tree before and after the marks are cleared. */
  lemma TakenKeepsCoherent(cfg: Config, n0: Forest, w: Walk, sink: Sink, nodes': Forest)
    requires ValidConfig(cfg) && WellFormed(cfg, n0) && WellFormed(cfg, w.nodes) && RootsPresent(cfg, n0)
    requires Queued(cfg, n0, w, {}) && SlotsApart(cfg, w.nodes) && TablesKept(n0, w.nodes) && Coherent(cfg, n0, sink)
    requires nodes'.Keys == w.nodes.Keys
    requires forall s :: s in w.nodes ==> nodes'[s] == w.nodes[s] || (s in w.emitted && nodes'[s] == w.nodes[s].(pending := false))
    ensures Coherent(cfg, nodes', StoreLevels(sink, RootLocal(cfg, w.nodes, w.tree), w.table, 5))
  {
    hide SlotsApart, WellFormed, StoreLevels, LocationOf, EntryOf, Queued, LastQueued, RootLocal;
    var r := StoreLevels(sink, RootLocal(cfg, w.nodes, w.tree), w.table, 5);
    forall s | s in nodes' && s.level < cfg.levels && !nodes'[s].pending
      ensures LocationOf(cfg, nodes', s) in r && r[LocationOf(cfg, nodes', s)] == EntryOf(cfg, nodes'[s]) {
      SinkAfterWalk(cfg, n0, w, sink, s);
      ClearedLocation(cfg, w.nodes, nodes', s);
      if s in w.emitted {
        EmittedCurrent(cfg, n0, w, {}, s);
      } else {
        QuietFacts(cfg, n0, w, s);
        LocationKept(cfg, n0, w.nodes, s);
      }
    }
  }

  lemma QuietFacts(cfg: Config, n0: Forest, w: Walk, s: Slot)
    requires Queued(cfg, n0, w, {}) && s in w.nodes && !w.nodes[s].pending
    ensures s in n0 && !n0[s].pending && EntryOf(cfg, n0[s]) == EntryOf(cfg, w.nodes[s])
    ensures LastQueued(w, s) == None || LastQueued(w, s) == Some(EntryOf(cfg, w.nodes[s]))
  {
    hide EntryOf, LastQueued;
  }

  lemma ClearedLocation(cfg: Config, nodes: Forest, nodes': Forest, s: Slot)
    requires nodes'.Keys == nodes.Keys && s in nodes
    requires forall x :: x in nodes ==> nodes'[x] == nodes[x] || nodes'[x] == nodes[x].(pending := false)
    ensures LocationOf(cfg, nodes', s) == LocationOf(cfg, nodes, s)
    ensures EntryOf(cfg, nodes'[s]) == EntryOf(cfg, nodes[s])
  {
  }

  /** A sink that took nothing is still coherent: whatever changed is pending. */
  lemma SkippedKeepsCoherent(cfg: Config, n0: Forest, w: Walk, sink: Sink)
    requires ValidConfig(cfg) && WellFormed(cfg, n0) && RootsPresent(cfg, n0)
    requires Queued(cfg, n0, w, {}) && TablesKept(n0, w.nodes) && Coherent(cfg, n0, sink)
    ensures Coherent(cfg, w.nodes, sink)
  {
    hide WellFormed, LocationOf, EntryOf, Queued;
    forall s | s in w.nodes && s.level < cfg.levels && !w.nodes[s].pending
      ensures LocationOf(cfg, w.nodes, s) in sink && sink[LocationOf(cfg, w.nodes, s)] == EntryOf(cfg, w.nodes[s]) {
      QuietFacts(cfg, n0, w, s);
      LocationKept(cfg, n0, w.nodes, s);
    }
  }

  ghost predicate AllCoherent(cfg: Config, nodes: Forest, st: Stream) {
    forall sink :: sink in Sinks(st) ==> Coherent(cfg, nodes, sink)
  }

  /** Committing a walk, whatever the flags say, keeps every sink coherent. */
  lemma CommitKeepsCoherent(cfg: Config, n0: Forest, w: Walk, st: Stream)
    requires ValidConfig(cfg) && WellFormed(cfg, n0) && WellFormed(cfg, w.nodes) && RootsPresent(cfg, n0)
    requires Queued(cfg, n0, w, {}) && SlotsApart(cfg, w.nodes) && TablesKept(n0, w.nodes) && AllCoherent(cfg, n0, st)
    ensures var (st', nodes') := Commit(cfg, st, w); AllCoherent(cfg, nodes', st')
  {
    hide SlotsApart, WellFormed, StoreLevels, WriteLevels, Coherent, EntryOf, Queued, RootLocal, ClearLevels, TablesKept;
    var local := RootLocal(cfg, w.nodes, w.tree);
    WriteLevelsStores(st, local, w.table, 5);
    CommitClears(cfg, n0, st, w);
    var nodes' := Commit(cfg, st, w).1;
    forall sink | sink in Sinks(st)
      ensures Coherent(cfg, nodes', StoreLevels(sink, local, w.table, 5))
      ensures !Committed(st) ==> Coherent(cfg, nodes', sink) {
      TakenKeepsCoherent(cfg, n0, w, sink, nodes');
      SkippedKeepsCoherent(cfg, n0, w, sink);
    }
  }
}
