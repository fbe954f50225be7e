/** Which blocks a walk reserves, and in which order: first the missing tables of a page, from the top, then its leaf. */
module Reservations {
  import opened Wrappers
  import opened Arithmetic
  import opened PageTables
  import opened PhysicalMemory
  import opened WalkModel
  import opened TreeFacts
  import opened WalkLookup
  import opened StreamCoherence
  import opened WalkShape
  import opened FrameAllocator
  import opened FrameOwnership

  datatype Reservation = Reservation(bank: nat, size: nat)

  /** The allocators after serving a list of reservations. */
  function Serve(mem: Physical, list: seq<Reservation>): Physical
    decreases |list|
  {
    if list == [] then mem
    else Serve(PhysicalMemory.Reserve(mem, list[0].bank, list[0].size, list[0].size).0, list[1..])
  }

  lemma {:induction false} ServeAppend(mem: Physical, a: seq<Reservation>, b: seq<Reservation>)
    ensures Serve(mem, a + b) == Serve(Serve(mem, a), b)
    decreases |a|
  {
    hide PhysicalMemory.Reserve;
    if a == [] {
      assert a + b == b;
    } else {
      assert (a + b)[1..] == a[1..] + b;
      ServeAppend(PhysicalMemory.Reserve(mem, a[0].bank, a[0].size, a[0].size).0, a[1..], b);
    }
  }

  function RootBank(cfg: Config, nodes: Forest, tree: nat): nat {
    if Root(cfg, tree) in nodes then nodes[Root(cfg, tree)].bank else 0
  }

  /** The tables missing from `level` down to the PDE. */
  function PathReservations(cfg: Config, q: Request, nodes: Forest, va: nat, level: nat): seq<Reservation>
    requires level <= 5
  {
    if level < 2 then []
    else
      (if TableSlot(q.tree, level, va) in nodes then [] else [Reservation(RootBank(cfg, nodes, q.tree), PAGE_4KB)])
      + PathReservations(cfg, q, nodes, va, level - 1)
  }

  function PteReservation(cfg: Config, q: Request, nodes: Forest, va: nat): seq<Reservation> {
    if TableSlot(q.tree, 1, va) in nodes || PlannedKind(nodes, q, va).Page2MB? then []
    else [Reservation(RootBank(cfg, nodes, q.tree), PAGE_4KB)]
  }

  function LeafReservation(cfg: Config, q: Request, nodes: Forest, va: nat): seq<Reservation>
    requires q.pageSize > 0
  {
    if q.mode.Reserve? && !q.mapping && PlannedLeaf(cfg, nodes, q, va) !in nodes
    then [Reservation(BankAt(q, va), PageSizeAt(PlannedKind(nodes, q, va)))] else []
  }

  function VisitReservations(cfg: Config, q: Request, nodes: Forest, va: nat): seq<Reservation>
    requires q.pageSize > 0
  {
    if q.mode.Expect? || cfg.levels == 0 || cfg.levels > 5 then []
    else PathReservations(cfg, q, nodes, va, cfg.levels - 1) + PteReservation(cfg, q, nodes, va) + LeafReservation(cfg, q, nodes, va)
  }

  /** The reservations of a walk, page after page. */
  function WalkReservations(cfg: Config, q: Request, w: Walk, va: nat, size: nat, target: nat, i: nat): seq<Reservation>
    requires q.pageSize > 0 && cfg.levels <= 5
    decreases size
  {
    if size == 0 || (q.mode.Clone? && i >= |q.infos|) then []
    else
      var v := PageVisit(cfg, q, w, va, size, target, InfoAt(q, i));
      var step := PageStep(v.pageSize, va, size);
      VisitReservations(cfg, q, w.nodes, va)
      + if v.leaf.None? then []
        else WalkReservations(cfg, q, Report(v, va, size, BankAt(q, va)), va + step, size - step, NextTarget(v, va, size), i + 1)
  }

  lemma {:induction false} PathOnlyAbove(cfg: Config, q: Request, a: Forest, b: Forest, va: nat, level: nat)
    requires level <= 5 && RootBank(cfg, b, q.tree) == RootBank(cfg, a, q.tree)
    requires forall l :: 2 <= l <= level ==> (TableSlot(q.tree, l, va) in a <==> TableSlot(q.tree, l, va) in b)
    ensures PathReservations(cfg, q, a, va, level) == PathReservations(cfg, q, b, va, level)
    decreases level
  {
    hide Span;
    if level >= 2 { PathOnlyAbove(cfg, q, a, b, va, level - 1); }
  }

  lemma AddTableServes(cfg: Config, q: Request, w: Walk, va: nat, s: Slot, kind: Kind)
    requires ValidConfig(cfg) && WellFormed(cfg, w.nodes) && s !in w.nodes && s.tree == q.tree && s.level < cfg.levels
    requires Parent(s) in w.nodes && IsTable(w.nodes[Parent(s)].kind)
    ensures var r := AddTable(w, s, kind);
      && r.mem == Serve(w.mem, [Reservation(RootBank(cfg, w.nodes, q.tree), PAGE_4KB)])
      && r.nodes.Keys == w.nodes.Keys + {s} && RootBank(cfg, r.nodes, q.tree) == RootBank(cfg, w.nodes, q.tree)
  {
    hide PhysicalMemory.Reserve, WellFormed;
    TableBank(cfg, w.nodes, Parent(s));
    assert Serve(w.mem, [Reservation(RootBank(cfg, w.nodes, q.tree), PAGE_4KB)])
      == Serve(PhysicalMemory.Reserve(w.mem, RootBank(cfg, w.nodes, q.tree), PAGE_4KB, PAGE_4KB).0, []);
  }

  lemma {:induction false} TablesDownServes(cfg: Config, q: Request, w: Walk, va: nat, level: nat)
    requires Ready(cfg, q, w.nodes, va) && ValidConfig(cfg) && !q.mode.Expect? && 1 <= level < cfg.levels && TableSlot(q.tree, level + 1, va) in w.nodes
    ensures TablesDown(cfg, q, w, va, level).0.mem == Serve(w.mem, PathReservations(cfg, q, w.nodes, va, level))
    ensures TablesDown(cfg, q, w, va, level).1
    decreases level
  {
    hide AddTable, PlainVisit, Grown, WellFormed, Span, Serve, RootBank, Index;
    if level >= 2 {
      var s := TableSlot(q.tree, level, va);
      ChildIsTableSlot(cfg, q.tree, level, va);
      TableAbove(cfg, w.nodes, TableSlot(q.tree, level + 1, va));
      GrownReflexive(cfg, q.tree, va, w.nodes);
      if s !in w.nodes {
        AddTableFacts(cfg, w, va, s, TableKind(level));
        AddTableServes(cfg, q, w, va, s, TableKind(level));
      }
      var w1 := if s in w.nodes then w else AddTable(w, s, TableKind(level));
      var w2 := PlainVisit(cfg, w1, s, s !in w.nodes || q.mapping);
      GrownStaysReady(cfg, q, va, w.nodes, w2.nodes);
      TablesDownServes(cfg, q, w2, va, level - 1);
      PathOnlyAbove(cfg, q, w.nodes, w2.nodes, va, level - 1);
      var first: seq<Reservation> := if s in w.nodes then [] else [Reservation(RootBank(cfg, w.nodes, q.tree), PAGE_4KB)];
      ServeAppend(w.mem, first, PathReservations(cfg, q, w.nodes, va, level - 1));
      ServeNothing(w.mem);
    }
    ServeNothing(w.mem);
  }

  lemma ServeNothing(mem: Physical)
    ensures Serve(mem, []) == mem
  {
  }

  lemma PlaceLeafServes(cfg: Config, q: Request, w: Walk, s: Slot, kind: Kind, unit: nat, bank: nat, target: nat, info: PageInfo)
    requires unit > 0
    ensures PlaceLeaf(q, w, s, kind, unit, bank, target, info).mem
      == Serve(w.mem, if s !in w.nodes && q.mode.Reserve? && !q.mapping then [Reservation(bank, unit)]
                      else if s !in w.nodes && q.mode.Expect? && !q.mapping then [Reservation(bank, unit)] else [])
  {
    hide PhysicalMemory.Reserve, RoundDown;
    var mem' := PhysicalMemory.Reserve(w.mem, bank, unit, unit).0;
    assert Serve(w.mem, [Reservation(bank, unit)]) == Serve(mem', []);
  }

  lemma VisitLeafMemory(cfg: Config, q: Request, before: Forest, w: Walk, s: Slot, pageSize: nat, size: nat)
    requires s in w.nodes && s.level < 5
    ensures VisitLeaf(cfg, q, before, w, s, pageSize, size).mem == w.mem
  {
    hide Ps64Visit, PlainVisit, WasGroup, Evolves;
    if Ps64Applicable(cfg, q) && pageSize == PAGE_4KB { Ps64VisitEvolves(cfg, w, s, WasGroup(cfg, before, s), size); }
  }

  /** The leaf of this visit stands where the next reservation of its size puts it. */
  ghost predicate Stands(mem: Physical, bank: nat, v: Visit) {
    v.leaf.Some? && v.leaf.value in v.w.nodes
    && v.w.nodes[v.leaf.value].phys == PhysicalMemory.Reserve(mem, bank, v.pageSize, v.pageSize).1
  }

  lemma NewLeafStands(q: Request, w: Walk, s: Slot, kind: Kind, unit: nat, bank: nat, target: nat, info: PageInfo)
    requires unit > 0 && s !in w.nodes && q.mode.Reserve? && !q.mapping
    ensures PlaceLeaf(q, w, s, kind, unit, bank, target, info).nodes[s].phys == PhysicalMemory.Reserve(w.mem, bank, unit, unit).1
  {
    hide PhysicalMemory.Reserve, RoundDown;
  }

  lemma PteStepServes(cfg: Config, q: Request, w: Walk, va: nat, size: nat, target: nat, info: PageInfo)
    requires q.pageSize > 0 && !q.mode.Expect? && TableSlot(q.tree, 1, va) in w.nodes && !w.nodes[TableSlot(q.tree, 1, va)].kind.Page2MB?
    ensures var v := PteStep(cfg, q, w, va, size, BankAt(q, va), target, info);
      && v.w.mem == Serve(w.mem, LeafReservation(cfg, q, w.nodes, va))
      && (LeafReservation(cfg, q, w.nodes, va) != [] ==> Stands(w.mem, BankAt(q, va), v))
  {
    hide PlaceLeaf, VisitLeaf, LeafSlot, BankAt, Serve, PhysicalMemory.Reserve;
    var kind := w.nodes[TableSlot(q.tree, 1, va)].kind;
    var s := LeafSlot(cfg, q.tree, kind, va);
    LeafSlotLevel(cfg, q.tree, kind, va);
    PlaceLeafServes(cfg, q, w, s, Page, PteSize(kind), BankAt(q, va), target, info);
    var w1 := PlaceLeaf(q, w, s, Page, PteSize(kind), BankAt(q, va), target, info);
    VisitLeafMemory(cfg, q, w.nodes, w1, s, PteSize(kind), size);
    VisitLeafKeeps(cfg, q, w.nodes, w1, s, PteSize(kind), size);
    if LeafReservation(cfg, q, w.nodes, va) != [] { NewLeafStands(q, w, s, Page, PteSize(kind), BankAt(q, va), target, info); }
  }

  lemma LargeStepServes(cfg: Config, q: Request, w: Walk, va: nat, target: nat, info: PageInfo)
    requires q.pageSize > 0 && !q.mode.Expect? && PlannedKind(w.nodes, q, va).Page2MB?
    ensures var v := LargePageStep(cfg, q, w, TableSlot(q.tree, 1, va), BankAt(q, va), target, info);
      && v.w.mem == Serve(w.mem, LeafReservation(cfg, q, w.nodes, va))
      && (LeafReservation(cfg, q, w.nodes, va) != [] ==> Stands(w.mem, BankAt(q, va), v))
  {
    hide PlaceLeaf, PlainVisit, BankAt, Serve, PhysicalMemory.Reserve;
    if LeafReservation(cfg, q, w.nodes, va) != [] {
      NewLeafStands(q, w, TableSlot(q.tree, 1, va), Page2MB, PAGE_2MB, BankAt(q, va), if q.mapping then Realign(target) else target, info);
    }
    PlaceLeafServes(cfg, q, w, TableSlot(q.tree, 1, va), Page2MB, PAGE_2MB, BankAt(q, va), if q.mapping then Realign(target) else target, info);
  }

  lemma PdeStepServes(cfg: Config, q: Request, w: Walk, va: nat, size: nat, target: nat, info: PageInfo)
    requires Ready(cfg, q, w.nodes, va) && ValidConfig(cfg) && Builds(q) && TableSlot(q.tree, 2, va) in w.nodes
    ensures var v := PdeStep(cfg, q, w, va, size, BankAt(q, va), target, info);
      && v.w.mem == Serve(w.mem, PteReservation(cfg, q, w.nodes, va) + LeafReservation(cfg, q, w.nodes, va))
      && (LeafReservation(cfg, q, w.nodes, va) != [] ==> Stands(Serve(w.mem, PteReservation(cfg, q, w.nodes, va)), BankAt(q, va), v))
  {
    hide PteStep, PlainVisit, LargePageStep, AddTable, WellFormed, Grown, Span, LeafSlot, BankAt, Serve, RootBank, Index, Stands;
    var s := TableSlot(q.tree, 1, va);
    ChildIsTableSlot(cfg, q.tree, 1, va);
    TableAbove(cfg, w.nodes, TableSlot(q.tree, 2, va));
    ServeAppend(w.mem, PteReservation(cfg, q, w.nodes, va), LeafReservation(cfg, q, w.nodes, va));
    ServeNothing(w.mem);
    if s in w.nodes && !w.nodes[s].kind.Page2MB? {
      PteStepServes(cfg, q, PlainVisit(cfg, w, s, q.mapping), va, size, target, info);
    } else if s in w.nodes || q.pageSize == PAGE_2MB {
      if s !in w.nodes || q.mapping { LargeStepServes(cfg, q, w, va, target, info); }
    } else {
      AddTableServes(cfg, q, w, va, s, PteKind(q.pageSize));
      AddTableFacts(cfg, w, va, s, PteKind(q.pageSize));
      var w2 := PlainVisit(cfg, AddTable(w, s, PteKind(q.pageSize)), s, true);
      PteStepServes(cfg, q, w2, va, size, target, info);
      NewTableNewLeaf(cfg, q, w.nodes, w2.nodes, va);
    }
  }

  /** A leaf under a table just made is as missing as it was before. */
  lemma NewTableNewLeaf(cfg: Config, q: Request, a: Forest, b: Forest, va: nat)
    requires q.pageSize > 0 && ValidConfig(cfg) && WellFormed(cfg, a)
    requires var s := TableSlot(q.tree, 1, va); s !in a && b.Keys == a.Keys + {s} && b[s].kind == PteKind(q.pageSize)
    requires q.pageSize != PAGE_2MB
    ensures LeafReservation(cfg, q, b, va) == LeafReservation(cfg, q, a, va)
  {
    hide LeafSlot, BankAt, WellFormed, Span;
    LeafSlotLevel(cfg, q.tree, PteKind(q.pageSize), va);
  }

  function TableReservations(cfg: Config, q: Request, nodes: Forest, va: nat): seq<Reservation>
    requires 0 < cfg.levels <= 5
  {
    PathReservations(cfg, q, nodes, va, cfg.levels - 1) + PteReservation(cfg, q, nodes, va)
  }

  /** A page visit changes the allocators by exactly its reservations, in order; a leaf it makes stands where the last one put it. */
  lemma VisitServes(cfg: Config, q: Request, w: Walk, va: nat, size: nat, target: nat, info: PageInfo)
    requires Ready(cfg, q, w.nodes, va) && ValidConfig(cfg) && Builds(q)
    ensures var v := PageVisit(cfg, q, w, va, size, target, info);
      && v.w.mem == Serve(w.mem, VisitReservations(cfg, q, w.nodes, va))
      && (LeafReservation(cfg, q, w.nodes, va) != [] ==> Stands(Serve(w.mem, TableReservations(cfg, q, w.nodes, va)), BankAt(q, va), v))
  {
    hide PdeStep, TablesDown, Grown, WellFormed, Span, BankAt, Serve, PathReservations, PteReservation, LeafReservation, Stands;
    RootIsTableSlot(cfg, q.tree, va);
    TablesDownFacts(cfg, q, w, va, cfg.levels - 1);
    TablesDownServes(cfg, q, w, va, cfg.levels - 1);
    var w1 := TablesDown(cfg, q, w, va, cfg.levels - 1).0;
    GrownStaysReady(cfg, q, va, w.nodes, w1.nodes);
    PdeStepServes(cfg, q, w1, va, size, target, info);
    HighTablesSameRest(cfg, q, w.nodes, w1.nodes, va);
    var path, rest := PathReservations(cfg, q, w.nodes, va, cfg.levels - 1), PteReservation(cfg, q, w.nodes, va) + LeafReservation(cfg, q, w.nodes, va);
    ServeAppend(w.mem, path, rest);
    ServeAppend(w.mem, path, PteReservation(cfg, q, w.nodes, va));
    assert path + rest == VisitReservations(cfg, q, w.nodes, va);
  }

  // ---- what every reservation keeps ----

  /** The allocators are sound and have nothing to give out that is not aligned to its size. */
  ghost predicate PoolOk(mem: Physical, g: Layout) {
    ValidPhysical(mem, g) && AlignedPool(mem)
  }

  predicate PageSizes(list: seq<Reservation>) {
    forall r :: r in list ==> PageSized(r.size)
  }

  lemma {:induction false} ServeKeepsPool(mem: Physical, g: Layout, list: seq<Reservation>)
    requires PoolOk(mem, g) && PageSizes(list)
    ensures PoolOk(Serve(mem, list), g)
    decreases |list|
  {
    hide ValidPhysical, AlignedPool, PhysicalMemory.Reserve, InUse, FrameAllocator.Disjoint;
    if list != [] {
      assert list[0] in list;
      ReserveOne(mem, g, list[0].bank, list[0].size);
      ServeKeepsPool(PhysicalMemory.Reserve(mem, list[0].bank, list[0].size, list[0].size).0, g, list[1..]);
    }
  }

  /** A frame of a page's size, from a bank that has an allocator or not. */
  lemma ReserveOne(mem: Physical, g: Layout, bank: nat, size: nat)
    requires PoolOk(mem, g) && PageSized(size)
    ensures PoolOk(PhysicalMemory.Reserve(mem, bank, size, size).0, g)
    ensures PhysicalMemory.Reserve(mem, bank, size, size).1 % size == 0
  {
    hide ValidPhysical, AlignedPool, InUse, FrameAllocator.Disjoint, Alloc;
    if HasArena(mem, bank) {
      ReserveFacts(mem, g, bank, size, size);
      ReserveKeepsPool(mem, bank, size, size);
      FreshFrameAligned(mem, g, bank, size);
    }
  }

  lemma {:induction false} PathSizes(cfg: Config, q: Request, nodes: Forest, va: nat, level: nat)
    requires level <= 5
    ensures PageSizes(PathReservations(cfg, q, nodes, va, level))
    decreases level
  {
    hide RootBank, Span;
    if level >= 2 { PathSizes(cfg, q, nodes, va, level - 1); }
  }

  lemma VisitSizes(cfg: Config, q: Request, nodes: Forest, va: nat)
    requires q.pageSize > 0 && ValidConfig(cfg)
    ensures PageSizes(VisitReservations(cfg, q, nodes, va)) && PageSizes(TableReservations(cfg, q, nodes, va))
  {
    hide RootBank, Span, BankAt, LeafSlot, PathReservations;
    PathSizes(cfg, q, nodes, va, cfg.levels - 1);
  }

  /** A page visit keeps the allocators sound, and a leaf it gives a frame of its own is aligned to its size. */
  lemma VisitKeepsPool(cfg: Config, q: Request, w: Walk, g: Layout, va: nat, size: nat, target: nat, info: PageInfo)
    requires Ready(cfg, q, w.nodes, va) && ValidConfig(cfg) && Builds(q) && PoolOk(w.mem, g)
    ensures var v := PageVisit(cfg, q, w, va, size, target, info);
      && PoolOk(v.w.mem, g)
      && (q.mode.Reserve? && !q.mapping && PlannedLeaf(cfg, w.nodes, q, va) !in w.nodes && v.pageSize == PageSizeAt(PlannedKind(w.nodes, q, va)) ==>
            v.leaf.Some? && v.leaf.value in v.w.nodes && v.w.nodes[v.leaf.value].phys % v.pageSize == 0)
  {
    hide PageVisit, WellFormed, BankAt, Serve, PoolOk, PhysicalMemory.Reserve, Ready, TableReservations, VisitReservations;
    VisitServes(cfg, q, w, va, size, target, info);
    VisitSizes(cfg, q, w.nodes, va);
    ServeKeepsPool(w.mem, g, VisitReservations(cfg, q, w.nodes, va));
    if LeafReservation(cfg, q, w.nodes, va) != [] {
      ServeKeepsPool(w.mem, g, TableReservations(cfg, q, w.nodes, va));
      ReserveOne(Serve(w.mem, TableReservations(cfg, q, w.nodes, va)), g, BankAt(q, va), PageSizeAt(PlannedKind(w.nodes, q, va)));
    }
  }

  lemma HighTablesSameRest(cfg: Config, q: Request, a: Forest, b: Forest, va: nat)
    requires q.pageSize > 0 && ValidConfig(cfg) && Grown(cfg, q.tree, va, a, b, None) && Root(cfg, q.tree) in a
    requires forall s :: s in b && s !in a ==> s.level >= 2
    ensures PteReservation(cfg, q, b, va) == PteReservation(cfg, q, a, va) && LeafReservation(cfg, q, b, va) == LeafReservation(cfg, q, a, va)
  {
    hide WellFormed, LeafSlot, BankAt, Span, Index;
    SamePlan(cfg, q, a, b, va);
    LeafSlotLevel(cfg, q.tree, PlannedKind(a, q, va), va);
  }

  /** A walk changes the allocators by exactly its reservations, in order. */
  lemma {:induction false} WalkServes(cfg: Config, q: Request, w: Walk, va: nat, size: nat, target: nat, i: nat)
    requires Sound(cfg, q, w.nodes) && FitsIn(cfg, va, size) && Builds(q)
    ensures WalkFrom(cfg, q, w, va, size, target, i).0.mem == Serve(w.mem, WalkReservations(cfg, q, w, va, size, target, i))
    decreases size
  {
    hide PageVisit, WellFormed, Visited, LeafOf, LeafSize, BankAt, FitsIn, PageEnd, Serve, VisitReservations;
    ServeNothing(w.mem);
    if size > 0 && !(q.mode.Clone? && i >= |q.infos|) {
      var v := PageVisit(cfg, q, w, va, size, target, InfoAt(q, i));
      TurnFacts(cfg, q, w, va, size, target, InfoAt(q, i));
      WalkTurn(cfg, q, w, va, size, target, i);
      VisitServes(cfg, q, w, va, size, target, InfoAt(q, i));
      var here := VisitReservations(cfg, q, w.nodes, va);
      if v.leaf.Some? {
        var step := PageStep(v.pageSize, va, size);
        var next := Report(v, va, size, BankAt(q, va));
        WalkServes(cfg, q, next, va + step, size - step, NextTarget(v, va, size), i + 1);
        ServeAppend(w.mem, here, WalkReservations(cfg, q, next, va + step, size - step, NextTarget(v, va, size), i + 1));
      } else {
        assert here + [] == here;
      }
    }
  }

  lemma {:induction false} WalkSizes(cfg: Config, q: Request, w: Walk, va: nat, size: nat, target: nat, i: nat)
    requires q.pageSize > 0 && ValidConfig(cfg)
    ensures PageSizes(WalkReservations(cfg, q, w, va, size, target, i))
    decreases size
  {
    hide PageVisit, BankAt, VisitReservations, PageStep, NextTarget;
    if size > 0 && !(q.mode.Clone? && i >= |q.infos|) {
      var v := PageVisit(cfg, q, w, va, size, target, InfoAt(q, i));
      VisitSizes(cfg, q, w.nodes, va);
      if v.leaf.Some? {
        var step := PageStep(v.pageSize, va, size);
        WalkSizes(cfg, q, Report(v, va, size, BankAt(q, va)), va + step, size - step, NextTarget(v, va, size), i + 1);
      }
    }
  }

  /** A walk keeps the allocators sound and aligned, whatever banks it asks for. */
  lemma WalkKeepsPool(cfg: Config, q: Request, w: Walk, g: Layout, va: nat, size: nat, target: nat, i: nat)
    requires Sound(cfg, q, w.nodes) && FitsIn(cfg, va, size) && Builds(q) && PoolOk(w.mem, g)
    ensures PoolOk(WalkFrom(cfg, q, w, va, size, target, i).0.mem, g)
  {
    hide WalkFrom, WalkReservations, WellFormed, PoolOk, FitsIn, Serve;
    WalkServes(cfg, q, w, va, size, target, i);
    WalkSizes(cfg, q, w, va, size, target, i);
    ServeKeepsPool(w.mem, g, WalkReservations(cfg, q, w, va, size, target, i));
  }

  /** Visiting a page that is all there reserves nothing. */
  lemma NothingToReserve(cfg: Config, q: Request, nodes: Forest, va: nat)
    requires ValidConfig(cfg) && WellFormed(cfg, nodes) && q.pageSize > 0 && LeafOf(cfg, nodes, q.tree, va).Some?
    ensures VisitReservations(cfg, q, nodes, va) == []
  {
    hide WellFormed, LeafSlot, BankAt, Span;
    var p := TableSlot(q.tree, 1, va);
    PdeKind(cfg, nodes, p);
    PathPresent(cfg, q, nodes, va, 1);
  }

  lemma {:induction false} PathPresent(cfg: Config, q: Request, nodes: Forest, va: nat, level: nat)
    requires ValidConfig(cfg) && WellFormed(cfg, nodes) && 1 <= level < cfg.levels && TableSlot(q.tree, level, va) in nodes
    requires PathReservations(cfg, q, nodes, va, level) == []
    ensures PathReservations(cfg, q, nodes, va, cfg.levels - 1) == []
    decreases cfg.levels - level
  {
    hide WellFormed, Span, Index;
    if level + 1 < cfg.levels {
      ChildIsTableSlot(cfg, q.tree, level, va);
      ParentTable(cfg, nodes, TableSlot(q.tree, level, va));
      PathPresent(cfg, q, nodes, va, level + 1);
    }
  }
}
