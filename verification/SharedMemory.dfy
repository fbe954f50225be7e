/** Whole calls over shared memory: every reservation of a walk maps its block, every write and read goes through the translation
    tables, and the bytes written first are the bytes read last. */
module SharedMemory {
  import opened Wrappers
  import opened Arithmetic
  import opened FrameAllocator
  import opened PhysicalMemory
  import opened MemoryBanks
  import opened PageTables
  import opened WalkModel
  import opened TreeFacts
  import opened WalkLookup
  import opened WalkStream
  import opened FrameOwnership
  import opened Streams
  import opened StreamCoherence
  import opened System
  import opened MapOverride
  import opened WalkShape
  import opened Reservations
  import opened EndToEnd
  import opened Shm4
  import opened HostMemory

  datatype Shm = Shm(sys: System, ts: HostTables, host: Host)

  /** aligned_alloc: where the host memory for a block is. Mapping a block changes the tables, so that no two calls of one run ask
      with the same tables, and any sequence of answers is such a function. */
  type Pick = (HostTables, nat) -> nat

  ghost predicate FreshPicks(pick: Pick) {
    forall ts, n :: FreshHost(ts, pick(ts, n), n)
  }

  /** The tables after a list of reservations, each of which maps its block. */
  function ServeTables(ts: HostTables, mem: Physical, list: seq<Reservation>, pick: Pick): HostTables
    decreases |list|
  {
    if list == [] then ts
    else
      var r := list[0];
      ServeTables(MapReserved(ts, mem, r.bank, r.size, pick(ts, r.size)), PhysicalMemory.Reserve(mem, r.bank, r.size, r.size).0, list[1..], pick)
  }

  function WalkTables(cfg: Config, sys: System, ts: HostTables, q: Request, pick: Pick): HostTables
    requires cfg.levels <= 5 && q.pageSize > 0
  {
    ServeTables(ts, sys.mem, WalkReservations(cfg, q, Start(q.tree, sys.nodes, sys.mem), q.gfx, q.size, 0, 0), pick)
  }

  /** writeMemory: the walk maps what it reserves, then its entries and the data are copied through the tables. */
  ghost function ShmWrite(cfg: Config, s: Shm, c: Call, bits: Entry -> seq<Byte>, pick: Pick): Shm
    requires cfg.levels <= 5 && c.q.pageSize > 0
  {
    var w := WalkMemory(cfg, c.q, s.sys.nodes, s.sys.mem, 0).0;
    var ts := WalkTables(cfg, s.sys, s.ts, c.q, pick);
    var h := HostMemory.StoreLevels(ts, s.host, RootLocal(cfg, w.nodes, w.tree), w.table, 5, bits);
    Shm(Step(cfg, s.sys, WalkTree(c.q, 0)), ts, if TotalSize(Runs(w.entries)) <= |c.data| then StoreRuns(ts, h, Runs(w.entries), c.data) else h)
  }

  ghost function ShmWriteAll(cfg: Config, s: Shm, calls: seq<Call>, bits: Entry -> seq<Byte>, pick: Pick): Shm
    requires cfg.levels <= 5 && forall c :: c in calls ==> c.q.pageSize > 0
    decreases |calls|
  {
    if calls == [] then s else ShmWriteAll(cfg, ShmWrite(cfg, s, calls[0], bits, pick), calls[1..], bits, pick)
  }

  /** readMemory: the pages of an Expect walk are copied through the tables over the caller's buffer. */
  ghost function ShmRead(cfg: Config, s: Shm, q: Request, buffer: seq<Byte>): seq<Byte>
    requires cfg.levels <= 5 && q.pageSize > 0
  {
    var runs := Runs(WalkMemory(cfg, q, s.sys.nodes, s.sys.mem, 0).0.entries);
    if TotalSize(runs) <= |buffer| then ReadHostRuns(s.ts, s.host, runs, buffer) else buffer
  }

  // ---- the reservations of a walk ----

  predicate Served(mem: Physical, list: seq<Reservation>) {
    forall r :: r in list ==> HasArena(mem, r.bank) && PageSized(r.size)
  }

  lemma {:induction false} ServeGrows(mem: Physical, g: Layout, list: seq<Reservation>)
    requires ValidPhysical(mem, g) && Served(mem, list)
    ensures Grows(mem, Serve(mem, list))
    decreases |list|
  {
    hide ValidPhysical, PhysicalMemory.Reserve, InUse, FrameAllocator.Disjoint;
    if list != [] {
      assert list[0] in list;
      var mem1 := PhysicalMemory.Reserve(mem, list[0].bank, list[0].size, list[0].size).0;
      ReserveFacts(mem, g, list[0].bank, list[0].size, list[0].size);
      StillServed(mem, mem1, list);
      ServeGrows(mem1, g, list[1..]);
      GrowsTransitive(mem, mem1, Serve(mem, list));
    }
  }

  lemma StillServed(mem: Physical, mem': Physical, list: seq<Reservation>)
    requires Served(mem, list) && |mem'| == |mem| && list != []
    ensures Served(mem', list[1..])
  {
  }

  /** After all its reservations every block in use is backed and no byte written before has moved. */
  lemma {:induction false} ServeStaysBacked(ts: HostTables, h: Host, m: Memory, mem: Physical, g: Layout, list: seq<Reservation>, pick: Pick)
    requires ValidPhysical(mem, g) && Served(mem, list) && FreshPicks(pick) && WithinWindows(Serve(mem, list), g)
    requires BlocksBacked(ts, mem) && Separate(ts) && Mirrors(h, ts, m) && KeysInUse(m, mem)
    ensures var ts', mem' := ServeTables(ts, mem, list, pick), Serve(mem, list);
      BlocksBacked(ts', mem') && Separate(ts') && Mirrors(h, ts', m) && KeysInUse(m, mem')
    decreases |list|
  {
    hide ValidPhysical, PhysicalMemory.Reserve, BlocksBacked, Separate, Mirrors, KeysInUse, MapReserved, FreshHost, WithinWindows, InUse, FrameAllocator.Disjoint;
    if list != [] {
      assert list[0] in list;
      var r := list[0];
      var mem1 := PhysicalMemory.Reserve(mem, r.bank, r.size, r.size).0;
      var ts1 := MapReserved(ts, mem, r.bank, r.size, pick(ts, r.size));
      ReserveFacts(mem, g, r.bank, r.size, r.size);
      StillServed(mem, mem1, list);
      ServeGrows(mem1, g, list[1..]);
      WindowsInherited(mem1, Serve(mem, list), g);
      ReserveStaysBacked(ts, h, m, mem, g, r.bank, r.size, pick(ts, r.size));
      ServeStaysBacked(ts1, h, m, mem1, g, list[1..], pick);
    }
  }

  lemma {:induction false} PathServed(cfg: Config, q: Request, nodes: Forest, mem: Physical, va: nat, level: nat)
    requires level <= 5 && HasArena(mem, RootBank(cfg, nodes, q.tree))
    ensures Served(mem, PathReservations(cfg, q, nodes, va, level))
    decreases level
  {
    hide RootBank, Span, ArenaOf;
    if level >= 2 { PathServed(cfg, q, nodes, mem, va, level - 1); }
  }

  lemma VisitServed(cfg: Config, q: Request, nodes: Forest, mem: Physical, va: nat)
    requires ValidConfig(cfg) && Reserves(q) && BanksExist(q, mem) && HasArena(mem, RootBank(cfg, nodes, q.tree))
    ensures Served(mem, VisitReservations(cfg, q, nodes, va))
  {
    hide RootBank, Span, ArenaOf, BankAt, LeafSlot, PathReservations, BanksExist;
    PathServed(cfg, q, nodes, mem, va, cfg.levels - 1);
    BankHasArena(q, mem, va);
  }

  lemma {:induction false} WalkServed(cfg: Config, q: Request, w: Walk, mem: Physical, va: nat, size: nat, target: nat, i: nat)
    requires Sound(cfg, q, w.nodes) && FitsIn(cfg, va, size) && Reserves(q) && OwnsAll(w.nodes)
    requires BanksExist(q, mem) && HasArena(mem, RootBank(cfg, w.nodes, q.tree))
    ensures Served(mem, WalkReservations(cfg, q, w, va, size, target, i))
    decreases size
  {
    hide PageVisit, WellFormed, LeafOf, LeafSize, BankAt, FitsIn, GrowsOnPath, LeafFits, PageEnd, Shaped, OwnsAll, VisitReservations, ArenaOf, BanksExist;
    if size > 0 {
      var v := PageVisit(cfg, q, w, va, size, target, InfoAt(q, i));
      TurnFacts(cfg, q, w, va, size, target, InfoAt(q, i));
      PageVisitShape(cfg, q, w, va, size, target, InfoAt(q, i));
      VisitKeepsLeaves(cfg, q, w, va, target, InfoAt(q, i), v);
      VisitServed(cfg, q, w.nodes, mem, va);
      var step := PageStep(v.pageSize, va, size);
      if v.leaf.Some? {
        WalkServed(cfg, q, Report(v, va, size, BankAt(q, va)), mem, va + step, size - step, NextTarget(v, va, size), i + 1);
      }
    }
  }

  // ---- the banks of a walk ----

  lemma VisitKeepsRouted(cfg: Config, q: Request, w: Walk, mem: Physical, va: nat, target: nat, info: PageInfo, v: Visit)
    requires ValidConfig(cfg) && WellFormed(cfg, v.w.nodes) && Root(cfg, q.tree) in w.nodes
    requires Reserves(q) && Shaped(cfg, q, w, va, target, info, v) && Visited(cfg, q, w, va, v) && Evolves(w.nodes, v.w.nodes, None)
    requires NodesRouted(w.nodes, mem) && Routed(mem, q.banks)
    ensures NodesRouted(v.w.nodes, mem)
  {
    hide WellFormed, LeafSlot, Landing, PlannedLeaf, PlannedKind, RoundDown, LeafOf, LeafSize, BankAt, Span;
    forall s | s in v.w.nodes && s !in w.nodes ensures Routed(mem, v.w.nodes[s].bank) {
      if Some(s) == v.leaf {
        RoutedBank(q, mem, va);
      } else {
        TableBank(cfg, v.w.nodes, s);
      }
    }
  }

  lemma RoutedBank(q: Request, mem: Physical, va: nat)
    requires q.pageSize > 0 && !q.mapping && Routed(mem, q.banks)
    ensures Routed(mem, BankAt(q, va))
  {
    hide BankOf;
    var first := RoundDown(q.gfx, q.pageSize);
    var end := RoundUp(q.gfx + q.size, q.pageSize);
    BankIsOneOf(q.banks, first, if end < first then 0 else end - first, va);
  }

  lemma {:induction false} WalkKeepsRouted(cfg: Config, q: Request, w: Walk, mem: Physical, va: nat, size: nat, target: nat, i: nat)
    requires Sound(cfg, q, w.nodes) && FitsIn(cfg, va, size) && Reserves(q) && OwnsAll(w.nodes)
    requires NodesRouted(w.nodes, mem) && Routed(mem, q.banks)
    ensures NodesRouted(WalkFrom(cfg, q, w, va, size, target, i).0.nodes, mem)
    decreases size
  {
    hide PageVisit, WellFormed, LeafOf, LeafSize, BankAt, FitsIn, GrowsOnPath, LeafFits, PageEnd, Shaped, OwnsAll, NodesRouted, Routed, Evolves;
    if size > 0 {
      var v := PageVisit(cfg, q, w, va, size, target, InfoAt(q, i));
      TurnFacts(cfg, q, w, va, size, target, InfoAt(q, i));
      WalkTurn(cfg, q, w, va, size, target, i);
      PageVisitShape(cfg, q, w, va, size, target, InfoAt(q, i));
      VisitKeepsLeaves(cfg, q, w, va, target, InfoAt(q, i), v);
      VisitKeepsRouted(cfg, q, w, mem, va, target, InfoAt(q, i), v);
      var step := PageStep(v.pageSize, va, size);
      WalkKeepsRouted(cfg, q, Report(v, va, size, BankAt(q, va)), mem, va + step, size - step, NextTarget(v, va, size), i + 1);
    }
  }

  // ---- what is written stays in blocks in use ----

  lemma StoreKeysInUse(m: Memory, mem: Physical, at: Place, data: seq<Byte>)
    requires KeysInUse(m, mem) && RunInUse(mem, Run(at.addr, |data|, at.local))
    ensures KeysInUse(StoreBytes(m, at, data), mem)
  {
    hide InUse;
    forall p | p in StoreBytes(m, at, data) ensures PlaceInUse(mem, p) {
      StoreBytesGet(m, at, data, p);
    }
  }

  lemma {:induction false} RunKeysInUse(m: Memory, mem: Physical, runs: seq<Run>, data: seq<Byte>)
    requires KeysInUse(m, mem) && TotalSize(runs) <= |data| && forall run :: run in runs ==> RunInUse(mem, run)
    ensures KeysInUse(PutRuns(m, runs, data), mem)
    decreases |runs|
  {
    hide KeysInUse, RunInUse, StoreBytes;
    if runs != [] {
      var at, part := Place(runs[0].local, runs[0].phys), data[..runs[0].size];
      assert runs[0] in runs && Run(at.addr, |part|, at.local) == runs[0];
      StoreKeysInUse(m, mem, at, part);
      RunKeysInUse(StoreBytes(m, at, part), mem, runs[1..], data[runs[0].size..]);
    }
  }

  lemma {:induction false} EntryKeysInUse(m: Memory, mem: Physical, local: bool, list: seq<PageEntryInfo>, bits: Entry -> seq<Byte>)
    requires KeysInUse(m, mem) && EightBytes(bits) && forall e :: e in list ==> RunInUse(mem, Run(e.address, 8, local))
    ensures KeysInUse(PutEntries(m, local, list, bits), mem)
    decreases |list|
  {
    hide KeysInUse, RunInUse, StoreBytes;
    if list != [] {
      var at, part := Place(local, list[0].address), bits(list[0].entry);
      assert list[0] in list && |part| == 8;
      StoreKeysInUse(m, mem, at, part);
      EntryKeysInUse(StoreBytes(m, at, part), mem, local, list[1..], bits);
    }
  }

  lemma {:induction false} LevelKeysInUse(m: Memory, mem: Physical, local: bool, table: PerLevel<PageEntryInfo>, level: nat, bits: Entry -> seq<Byte>)
    requires KeysInUse(m, mem) && EightBytes(bits) && level <= 5
    requires forall l, e :: 0 <= l < 5 && e in table[l] ==> RunInUse(mem, Run(e.address, 8, local))
    ensures KeysInUse(PutLevels(m, local, table, level, bits), mem)
    decreases level
  {
    hide KeysInUse, RunInUse, PutEntries, EightBytes;
    if level > 0 {
      EntryKeysInUse(m, mem, local, table[level - 1], bits);
      LevelKeysInUse(PutEntries(m, local, table[level - 1], bits), mem, local, table, level - 1, bits);
    }
  }

  // ---- host memory follows physical memory call by call ----

  /** Host memory, seen through the tables, is the physical memory m, and every block in use has host memory of its own. */
  ghost predicate Follows(ts: HostTables, h: Host, m: Memory, mem: Physical) {
    BlocksBacked(ts, mem) && Separate(ts) && Mirrors(h, ts, m) && KeysInUse(m, mem)
  }

  ghost predicate Prepared(cfg: Config, g: Layout, s: Shm) {
    Calm(cfg, g, s.sys) && NodesRouted(s.sys.nodes, s.sys.mem)
  }

  /** The walk's entries and pages lie in blocks in use. */
  lemma WalkInUse(cfg: Config, g: Layout, sys: System, q: Request)
    requires Calm(cfg, g, sys) && Reserves(q) && Allowed(cfg, sys, WalkTree(q, 0)) && NodesRouted(sys.nodes, sys.mem) && Routed(sys.mem, q.banks)
    requires WithinWindows(Step(cfg, sys, WalkTree(q, 0)).mem, g)
    ensures var w := WalkMemory(cfg, q, sys.nodes, sys.mem, 0).0; var sys' := Step(cfg, sys, WalkTree(q, 0));
      && NodesRouted(sys'.nodes, sys'.mem)
      && (forall l, e :: 0 <= l < 5 && e in w.table[l] ==> RunInUse(w.mem, Run(e.address, 8, RootLocal(cfg, w.nodes, w.tree))))
      && (forall run :: run in Runs(w.entries) ==> RunInUse(w.mem, run))
  {
    hide WellFormed, Sane, WalkFrom, BanksExist, FitsIn, WithinWindows, Queued, OwnsAll, Runs, Pages, Evolves, Step, RunInUse, LeafOf, LeafSize, RootLocal;
    ReservingWalk(cfg, g, sys, q);
    var w := WalkMemory(cfg, q, sys.nodes, sys.mem, 0).0;
    WalkKeepsRouted(cfg, q, Start(q.tree, sys.nodes, sys.mem), sys.mem, q.gfx, q.size, 0, 0);
    SameCount(cfg, sys, q, g);
    StillRouted(w.nodes, Step(cfg, sys, WalkTree(q, 0)).nodes, w.mem);
    forall l, e | 0 <= l < 5 && e in w.table[l] ensures RunInUse(w.mem, Run(e.address, 8, RootLocal(cfg, w.nodes, w.tree))) {
      EntryHangs(cfg, sys.nodes, w, l, e);
      EntryInUse(cfg, w.nodes, w.mem, g, e.slot);
    }
    forall x | q.gfx <= x < q.gfx + q.size ensures LeafOf(cfg, w.nodes, q.tree, x).Some? {
      BytePlace(cfg, w.nodes, q.tree, q.gfx, q.size, x - q.gfx);
    }
    EvolvesSelf(w.nodes);
    forall run | run in Runs(w.entries) ensures RunInUse(w.mem, run) {
      var i :| 0 <= i < |Runs(w.entries)| && Runs(w.entries)[i] == run;
      PagesInUse(cfg, w.nodes, w.nodes, w.mem, g, q.tree, q.gfx, q.size, i);
    }
  }

  lemma SameCount(cfg: Config, sys: System, q: Request, g: Layout)
    requires ValidConfig(cfg) && WellFormed(cfg, sys.nodes) && Sane(sys.nodes, sys.mem, g, Everyone) && Allowed(cfg, sys, WalkTree(q, 0))
    ensures var mem := WalkMemory(cfg, q, sys.nodes, sys.mem, 0).0.mem;
      |mem| == |sys.mem| && forall nodes: Forest :: NodesRouted(nodes, sys.mem) ==> NodesRouted(nodes, mem)
  {
    hide WellFormed, Owned, ValidPhysical, AlignedPool, WalkMemory, Queued, TablesKept;
    EveryoneIncludesTables(sys.nodes, sys.mem, Everyone);
    WalkStep(cfg, g, sys, q, 0);
  }

  lemma StillRouted(a: Forest, b: Forest, mem: Physical)
    requires NodesRouted(a, mem) && Evolves(a, b, None) && b.Keys == a.Keys
    ensures NodesRouted(b, mem)
  {
  }

  lemma EntryHangs(cfg: Config, n0: Forest, w: Walk, l: nat, e: PageEntryInfo)
    requires Queued(cfg, n0, w, {}) && l < 5 && e in w.table[l]
    ensures e.slot in w.nodes && Parent(e.slot) in w.nodes && e.slot.tree == w.tree && e.address == EntryAddress(w.nodes, e.slot)
  {
    hide QuietOk, EmittedOk, PendingOk, ListsOk;
    assert Hangs(w, e.slot);
  }

  /** One write, over the tables, does to host memory what it does to physical memory. */
  lemma WriteFollows(cfg: Config, g: Layout, s: Shm, m: Memory, c: Call, bits: Entry -> seq<Byte>, pick: Pick)
    requires Prepared(cfg, g, s) && Follows(s.ts, s.host, m, s.sys.mem) && FreshPicks(pick) && EightBytes(bits)
    requires CallOk(cfg, s.sys, c) && Routed(s.sys.mem, c.q.banks) && WithinWindows(Step(cfg, s.sys, WalkTree(c.q, 0)).mem, g)
    ensures var s', (sys', m') := ShmWrite(cfg, s, c, bits, pick), WriteMemory(cfg, s.sys, m, c, bits);
      s'.sys == sys' && Prepared(cfg, g, s') && Follows(s'.ts, s'.host, m', s'.sys.mem)
  {
    hide WellFormed, Sane, WalkFrom, BanksExist, FitsIn, WithinWindows, Queued, OwnsAll, Runs, Pages, Evolves, Step, RunInUse, RunBacked, NodesRouted,
         BlocksBacked, Separate, Mirrors, KeysInUse, FreshPicks, EightBytes, HostMemory.StoreLevels, StoreRuns, PutLevels, PutRuns, RootLocal, Serve, ServeTables,
         Served, WalkReservations;
    var q, sys := c.q, s.sys;
    ReservingWalk(cfg, g, sys, q);
    WalkInUse(cfg, g, sys, q);
    WalkMaps(cfg, g, s, m, q, pick);
    var w := WalkMemory(cfg, q, sys.nodes, sys.mem, 0).0;
    var ts := WalkTables(cfg, sys, s.ts, q, pick);
    var local := RootLocal(cfg, w.nodes, w.tree);
    forall run | RunInUse(w.mem, run) ensures RunBacked(ts, run) { InUseBacked(ts, w.mem, run); }
    StoreLevelsMirrors(s.host, ts, m, local, w.table, 5, bits);
    LevelKeysInUse(m, w.mem, local, w.table, 5, bits);
    var h1, m1 := HostMemory.StoreLevels(ts, s.host, local, w.table, 5, bits), PutLevels(m, local, w.table, 5, bits);
    StoreRunsMirrors(h1, ts, m1, Runs(w.entries), c.data);
    RunKeysInUse(m1, w.mem, Runs(w.entries), c.data);
  }

  /** The walk's reservations keep host memory in step. */
  lemma WalkMaps(cfg: Config, g: Layout, s: Shm, m: Memory, q: Request, pick: Pick)
    requires Prepared(cfg, g, s) && Follows(s.ts, s.host, m, s.sys.mem) && FreshPicks(pick) && Reserves(q) && Allowed(cfg, s.sys, WalkTree(q, 0))
    requires WithinWindows(WalkMemory(cfg, q, s.sys.nodes, s.sys.mem, 0).0.mem, g)
    ensures Follows(WalkTables(cfg, s.sys, s.ts, q, pick), s.host, m, WalkMemory(cfg, q, s.sys.nodes, s.sys.mem, 0).0.mem)
  {
    hide WellFormed, Owned, ValidPhysical, AlignedPool, WalkFrom, BanksExist, FitsIn, WithinWindows, OwnsAll, NodesRouted, BlocksBacked, Separate, Mirrors, KeysInUse,
         FreshPicks, Serve, ServeTables, Served, WalkReservations, ArenaOf;
    var w0 := Start(q.tree, s.sys.nodes, s.sys.mem);
    RootHasArena(cfg, g, s.sys, q.tree);
    WalkServes(cfg, q, w0, q.gfx, q.size, 0, 0);
    WalkServed(cfg, q, w0, s.sys.mem, q.gfx, q.size, 0, 0);
    ServeStaysBacked(s.ts, s.host, m, s.sys.mem, g, WalkReservations(cfg, q, w0, q.gfx, q.size, 0, 0), pick);
  }

  lemma RootHasArena(cfg: Config, g: Layout, sys: System, tree: nat)
    requires ValidConfig(cfg) && WellFormed(cfg, sys.nodes) && Sane(sys.nodes, sys.mem, g, Everyone) && Root(cfg, tree) in sys.nodes
    ensures HasArena(sys.mem, RootBank(cfg, sys.nodes, tree))
  {
    hide ValidPhysical, AlignedPool, Owned, ArenaOf;
    assert Placed(cfg, sys.nodes, Root(cfg, tree));
    ParentHasArena(sys.nodes, sys.mem, Everyone, Root(cfg, tree));
  }

  /** Every later call asks for banks whose kind has allocators. */
  predicate AllRouted(count: nat, calls: seq<Call>) {
    forall c :: c in calls ==> c.q.banks == 0 || count > 1
  }

  lemma {:induction false} WritesFollow(cfg: Config, g: Layout, s: Shm, m: Memory, calls: seq<Call>, bits: Entry -> seq<Byte>, pick: Pick, tree: nat, x: nat)
    requires Prepared(cfg, g, s) && Follows(s.ts, s.host, m, s.sys.mem) && FreshPicks(pick) && EightBytes(bits)
    requires forall c :: c in calls ==> c.q.pageSize > 0
    requires LaterCalls(cfg, g, s.sys, calls, tree, x) && AllRouted(|s.sys.mem|, calls)
    ensures var s', (sys', m') := ShmWriteAll(cfg, s, calls, bits, pick), WriteAll(cfg, s.sys, m, calls, bits);
      s'.sys == sys' && Prepared(cfg, g, s') && Follows(s'.ts, s'.host, m', s'.sys.mem)
    decreases |calls|
  {
    hide Prepared, Follows, FreshPicks, EightBytes, Step, ShmWrite, WriteMemory, WithinWindows;
    if calls != [] {
      assert calls[0] in calls;
      LevelsOk(cfg, g, s);
      WriteFollows(cfg, g, s, m, calls[0], bits, pick);
      CountStays(cfg, g, s.sys, calls[0].q, s);
      var s1, m1 := ShmWrite(cfg, s, calls[0], bits, pick), WriteMemory(cfg, s.sys, m, calls[0], bits).1;
      SysOfWrite(cfg, s.sys, m, calls[0], bits);
      WritesFollow(cfg, g, s1, m1, calls[1..], bits, pick, tree, x);
    }
  }

  lemma LevelsOk(cfg: Config, g: Layout, s: Shm)
    requires Prepared(cfg, g, s)
    ensures ValidConfig(cfg)
  {
  }

  lemma SysOfWrite(cfg: Config, sys: System, m: Memory, c: Call, bits: Entry -> seq<Byte>)
    requires cfg.levels <= 5 && c.q.pageSize > 0
    ensures WriteMemory(cfg, sys, m, c, bits).0 == Step(cfg, sys, WalkTree(c.q, 0))
  {
  }

  lemma CountStays(cfg: Config, g: Layout, sys: System, q: Request, s: Shm)
    requires Prepared(cfg, g, s) && s.sys == sys && Reserves(q) && Allowed(cfg, sys, WalkTree(q, 0))
    requires WithinWindows(Step(cfg, sys, WalkTree(q, 0)).mem, g)
    ensures |Step(cfg, sys, WalkTree(q, 0)).mem| == |sys.mem|
  {
    hide WellFormed, Sane, Step, WalkMemory, WithinWindows, OwnsAll, NodesRouted, BanksExist, FitsIn, Evolves, Runs, Pages, Queued;
    ReservingWalk(cfg, g, sys, q);
    SameCount(cfg, sys, q, g);
  }

  // ---- reading back ----

  lemma {:induction false} ExpectEvolves(cfg: Config, q: Request, w: Walk, va: nat, size: nat, target: nat, i: nat)
    requires Sound(cfg, q, w.nodes) && FitsIn(cfg, va, size) && q.mode.Expect? && !q.mapping
    ensures Evolves(w.nodes, WalkFrom(cfg, q, w, va, size, target, i).0.nodes, None)
    decreases size
  {
    hide PageVisit, WellFormed, LeafOf, LeafSize, BankAt, FitsIn, GrowsOnPath, LeafFits, PageEnd, Evolves;
    EvolvesSelf(w.nodes);
    if size > 0 {
      var v := PageVisit(cfg, q, w, va, size, target, InfoAt(q, i));
      TurnFacts(cfg, q, w, va, size, target, InfoAt(q, i));
      WalkTurn(cfg, q, w, va, size, target, i);
      ExpectVisitKeeps(cfg, q, w, va, size, target, InfoAt(q, i));
      if v.leaf.Some? {
        var step := PageStep(v.pageSize, va, size);
        ExpectEvolves(cfg, q, Report(v, va, size, BankAt(q, va)), va + step, size - step, NextTarget(v, va, size), i + 1);
        EvolvesTransitive(w.nodes, v.w.nodes, WalkFrom(cfg, q, w, va, size, target, i).0.nodes);
      }
    }
  }

  /** Every byte of a run is one of the bytes of the list. */
  lemma {:induction false} RunBytes(runs: seq<Run>, i: nat, k: nat)
    requires i < |runs| && k < runs[i].size
    ensures exists j: nat :: j < TotalSize(runs) && ByteTarget(runs, j) == Some(Target(runs[i].phys + k, runs[i].local))
    decreases |runs|
  {
    if i == 0 {
      assert ByteTarget(runs, k) == Some(Target(runs[0].phys + k, runs[0].local));
    } else {
      RunBytes(runs[1..], i - 1, k);
      var j: nat :| j < TotalSize(runs[1..]) && ByteTarget(runs[1..], j) == Some(Target(runs[i].phys + k, runs[i].local));
      assert ByteTarget(runs, j + runs[0].size) == ByteTarget(runs[1..], j);
    }
  }

  /** What a read of held bytes reports is in use and written. */
  lemma ReadRunsHeld(cfg: Config, g: Layout, s: Shm, m: Memory, q: Request, data: seq<Byte>)
    requires Prepared(cfg, g, s) && q.pageSize > 0 && q.mode.Expect? && !q.mapping && Root(cfg, q.tree) in s.sys.nodes && FitsIn(cfg, q.gfx, q.size)
    requires |data| == q.size && forall j :: 0 <= j < q.size ==> Holds(cfg, s.sys, m, q.tree, q.gfx + j, data[j])
    ensures var runs := Runs(WalkMemory(cfg, q, s.sys.nodes, s.sys.mem, 0).0.entries);
      && TotalSize(runs) == q.size
      && forall run :: run in runs ==> RunInUse(s.sys.mem, run) && Written(m, run)
  {
    hide WellFormed, Sane, WalkFrom, WithinWindows, OwnsAll, LeafOf, LeafSize, Runs, Pages, FitsIn, Get, NodesRouted, RunInUse, Evolves;
    var w0 := Start(q.tree, s.sys.nodes, s.sys.mem);
    var w := WalkMemory(cfg, q, s.sys.nodes, s.sys.mem, 0).0;
    WalkMatchesLookup(cfg, q, w0, q.gfx, q.size, 0, 0);
    StartRuns(w0);
    var runs := Runs(w.entries);
    assert runs == Pages(cfg, w.nodes, q.tree, q.gfx, q.size);
    ExpectEvolves(cfg, q, w0, q.gfx, q.size, 0, 0);
    WalkStaysSound(cfg, q, w0, q.gfx, q.size, 0, 0);
    forall x | q.gfx <= x < q.gfx + q.size
      ensures LeafOf(cfg, s.sys.nodes, q.tree, x).Some? && LeafOf(cfg, w.nodes, q.tree, x).Some?
      ensures Translate(cfg, w.nodes, q.tree, x) == Translate(cfg, s.sys.nodes, q.tree, x) {
      assert Holds(cfg, s.sys, m, q.tree, q.gfx + (x - q.gfx), data[x - q.gfx]);
      EvolvesKeepsTranslate(cfg, s.sys.nodes, w.nodes, q.tree, x);
    }
    MappedRunsFill(cfg, w.nodes, q.tree, q.gfx, q.size);
    forall run | run in runs ensures RunInUse(s.sys.mem, run) && Written(m, run) {
      var i :| 0 <= i < |runs| && runs[i] == run;
      PagesInUse(cfg, s.sys.nodes, w.nodes, s.sys.mem, g, q.tree, q.gfx, q.size, i);
      forall p: Place | p.local == run.local && run.phys <= p.addr < run.phys + run.size ensures p in m {
        RunBytes(runs, i, p.addr - run.phys);
        var j: nat :| j < TotalSize(runs) && ByteTarget(runs, j) == Some(Target(p.addr, p.local));
        BytePlace(cfg, w.nodes, q.tree, q.gfx, q.size, j);
        assert Holds(cfg, s.sys, m, q.tree, q.gfx + j, data[j]);
      }
    }
  }

  lemma ReadFollows(cfg: Config, g: Layout, s: Shm, m: Memory, q: Request, data: seq<Byte>, buffer: seq<Byte>)
    requires Prepared(cfg, g, s) && Follows(s.ts, s.host, m, s.sys.mem)
    requires q.pageSize > 0 && q.mode.Expect? && !q.mapping && Root(cfg, q.tree) in s.sys.nodes && FitsIn(cfg, q.gfx, q.size)
    requires |buffer| == |data| == q.size && forall j :: 0 <= j < q.size ==> Holds(cfg, s.sys, m, q.tree, q.gfx + j, data[j])
    ensures ShmRead(cfg, s, q, buffer) == ReadMemory(cfg, s.sys, m, q)
  {
    hide Calm, WalkMemory, Runs, FitsIn, NodesRouted, RunInUse, Holds, Written, RunBacked, BlocksBacked, Mirrors, Separate, KeysInUse, ReadRuns, ReadHostRuns;
    LevelsOk(cfg, g, s);
    ReadRunsHeld(cfg, g, s, m, q, data);
    var runs := Runs(WalkMemory(cfg, q, s.sys.nodes, s.sys.mem, 0).0.entries);
    forall run | run in runs ensures RunBacked(s.ts, run) { InUseBacked(s.ts, s.sys.mem, run); }
    ReadRunsMirror(s.host, s.ts, m, runs, buffer);
  }

  lemma NothingWrittenFollows(ts: HostTables, h: Host, mem: Physical)
    requires BlocksBacked(ts, mem) && Separate(ts)
    ensures Follows(ts, h, map[], mem)
  {
  }

  /** writeMemory, then any writes elsewhere, then readMemory, all through the translation tables into host memory: the bytes of the
      first call come back, whatever host memory and the buffer held before. */
  lemma ShmReadAfterWrite(cfg: Config, g: Layout, s: Shm, first: Call, later: seq<Call>, bits: Entry -> seq<Byte>, pick: Pick, read: Request,
                          buffer: seq<Byte>)
    requires Prepared(cfg, g, s) && BlocksBacked(s.ts, s.sys.mem) && Separate(s.ts) && FreshPicks(pick)
    requires CallOk(cfg, s.sys, first) && EightBytes(bits) && AllRouted(|s.sys.mem|, [first] + later)
    requires WithinWindows(Step(cfg, s.sys, WalkTree(first.q, 0)).mem, g)
    requires forall c :: c in later ==> c.q.pageSize > 0
    requires forall x :: first.q.gfx <= x < first.q.gfx + first.q.size ==>
      LaterCalls(cfg, g, Step(cfg, s.sys, WalkTree(first.q, 0)), later, first.q.tree, x)
    requires read.tree == first.q.tree && read.gfx == first.q.gfx && read.size == first.q.size == |buffer|
    requires read.pageSize > 0 && read.mode.Expect? && !read.mapping
    ensures ShmRead(cfg, ShmWriteAll(cfg, ShmWrite(cfg, s, first, bits, pick), later, bits, pick), read, buffer) == first.data
  {
    hide Prepared, Follows, FreshPicks, EightBytes, Step, ShmWrite, ShmWriteAll, ShmRead, WriteMemory, WriteAll, ReadMemory, WithinWindows, Separate, BlocksBacked, Holds,
         LaterCalls;
    LevelsOk(cfg, g, s);
    var s1 := ShmWrite(cfg, s, first, bits, pick);
    var s2 := ShmWriteAll(cfg, s1, later, bits, pick);
    if read.size == 0 {
      ReadsNothing(cfg, s2, read);
    } else {
      var (sys1, m1) := WriteMemory(cfg, s.sys, map[], first, bits);
      var (sys2, m2) := WriteAll(cfg, sys1, m1, later, bits);
      assert first in [first] + later;
      assert forall c :: c in later ==> c in [first] + later;
      NothingWrittenFollows(s.ts, s.host, s.sys.mem);
      WriteFollows(cfg, g, s, map[], first, bits, pick);
      CountStays(cfg, g, s.sys, first.q, s);
      SysOfWrite(cfg, s.sys, map[], first, bits);
      assert LaterCalls(cfg, g, sys1, later, read.tree, read.gfx + 0);
      WritesFollow(cfg, g, s1, m1, later, bits, pick, read.tree, read.gfx);
      FirstHolds(cfg, g, s, first, later, bits, read);
      ReadFollows(cfg, g, s2, m2, read, first.data, buffer);
      IsCalm(cfg, g, s);
      ReadAfterWrite(cfg, g, s.sys, map[], first, later, bits, read);
    }
  }

  lemma IsCalm(cfg: Config, g: Layout, s: Shm)
    requires Prepared(cfg, g, s)
    ensures Calm(cfg, g, s.sys)
  {
  }

  lemma ReadsNothing(cfg: Config, s: Shm, q: Request)
    requires cfg.levels <= 5 && q.pageSize > 0 && q.size == 0
    ensures ShmRead(cfg, s, q, []) == []
  {
    WalkOfNothing(cfg, q, Start(q.tree, s.sys.nodes, s.sys.mem), q.gfx, 0, 0);
  }

  /** After the writes a byte of the first is held at its place. */
  lemma ByteHolds(cfg: Config, g: Layout, s: Shm, first: Call, later: seq<Call>, bits: Entry -> seq<Byte>, j: nat)
    requires Prepared(cfg, g, s) && CallOk(cfg, s.sys, first) && EightBytes(bits) && WithinWindows(Step(cfg, s.sys, WalkTree(first.q, 0)).mem, g)
    requires (forall c :: c in later ==> c.q.pageSize > 0) && j < first.q.size
    requires LaterCalls(cfg, g, Step(cfg, s.sys, WalkTree(first.q, 0)), later, first.q.tree, first.q.gfx + j)
    ensures var (sys1, m1) := WriteMemory(cfg, s.sys, map[], first, bits); var (sys2, m2) := WriteAll(cfg, sys1, m1, later, bits);
      Calm(cfg, g, sys2) && Holds(cfg, sys2, m2, first.q.tree, first.q.gfx + j, first.data[j])
  {
    hide Holds, EightBytes, Step, WriteMemory, WriteAll, WithinWindows, Evolves, Runs, Pages, Queued, Sane, WellFormed, OwnsAll, BanksExist, NodesRouted, LaterCalls,
         WalkMemory, FitsIn;
    ReservingWalk(cfg, g, s.sys, first.q);
    SysOfWrite(cfg, s.sys, map[], first, bits);
    var (sys1, m1) := WriteMemory(cfg, s.sys, map[], first, bits);
    WriteHolds(cfg, g, s.sys, map[], first, bits, j);
    LaterWritesKeep(cfg, g, sys1, m1, later, bits, first.q.tree, first.q.gfx + j, first.data[j]);
  }

  lemma FirstHolds(cfg: Config, g: Layout, s: Shm, first: Call, later: seq<Call>, bits: Entry -> seq<Byte>, read: Request)
    requires Prepared(cfg, g, s) && CallOk(cfg, s.sys, first) && EightBytes(bits) && WithinWindows(Step(cfg, s.sys, WalkTree(first.q, 0)).mem, g)
    requires forall c :: c in later ==> c.q.pageSize > 0
    requires forall x :: first.q.gfx <= x < first.q.gfx + first.q.size ==>
      LaterCalls(cfg, g, Step(cfg, s.sys, WalkTree(first.q, 0)), later, first.q.tree, x)
    requires read.tree == first.q.tree && read.gfx == first.q.gfx && read.size == first.q.size > 0
    ensures var (sys1, m1) := WriteMemory(cfg, s.sys, map[], first, bits); var (sys2, m2) := WriteAll(cfg, sys1, m1, later, bits);
      && (forall j :: 0 <= j < read.size ==> Holds(cfg, sys2, m2, read.tree, read.gfx + j, first.data[j]))
      && Root(cfg, read.tree) in sys2.nodes && FitsIn(cfg, read.gfx, read.size)
  {
    hide Holds, EightBytes, Step, WriteMemory, WriteAll, WithinWindows, Calm, NodesRouted, LaterCalls, FitsIn, BanksExist;
    LevelsOk(cfg, g, s);
    var (sys1, m1) := WriteMemory(cfg, s.sys, map[], first, bits);
    var (sys2, m2) := WriteAll(cfg, sys1, m1, later, bits);
    forall j | 0 <= j < read.size ensures Calm(cfg, g, sys2) && Holds(cfg, sys2, m2, read.tree, read.gfx + j, first.data[j]) {
      ByteHolds(cfg, g, s, first, later, bits, j);
    }
    assert Holds(cfg, sys2, m2, read.tree, read.gfx + 0, first.data[0]);
    RootOfHeld(cfg, g, sys2, m2, read.tree, read.gfx, first.data[0]);
  }

  // ---- there is always fresh host memory ----

  /** Above every host byte of a table. */
  ghost function Above(t: HostTable): (p: nat)
    ensures forall k :: k in t ==> t[k] + PAGE_4KB <= p
    decreases |t|
  {
    if t == map[] then 0
    else
      var k :| k in t;
      var rest := Above(t - {k});
      assert forall x :: x in t && x != k ==> x in t - {k};
      Max(rest, t[k] + PAGE_4KB)
  }

  /** A host allocator that never hands out the same bytes twice exists. */
  lemma FreshPicksExist() returns (pick: Pick)
    ensures FreshPicks(pick)
  {
    pick := (ts: HostTables, n: nat) => Max(Above(ts.system), Above(ts.local));
    forall ts, n ensures FreshHost(ts, pick(ts, n), n) {
      forall a | Behind(ts, a).Some? ensures Behind(ts, a).value < pick(ts, n) {}
    }
  }

  /** A new manager's state, whatever host memory holds. */
  lemma NewManagerPrepared(cfg: Config, count: nat, g: Layout, st: Stream, h: Host)
    requires ValidConfig(cfg)
    ensures var mem := Fresh(count, g.bankSize, g.localMemory); var ts := HostTables(map[], map[]);
      Prepared(cfg, g, Shm(System(map[], mem, st), ts, h)) && Follows(ts, h, map[], mem)
  {
    hide AlignedPool, ValidPhysical;
    EmptyIsConsistent(cfg, count, g, st);
    var mem := Fresh(count, g.bankSize, g.localMemory);
    forall i | 0 < i < |mem| ensures mem[i].next <= FirstAddress(i + 1, g.bankSize, g.localMemory) {
      WindowsOrdered(i, i + 1, g);
    }
    EmptyOwnsAll();
  }

  lemma EmptyOwnsAll()
    ensures OwnsAll(map[])
  {
  }

  /** Creating an address space maps its root's frame and keeps host memory in step. */
  lemma NewTreeFollows(cfg: Config, g: Layout, s: Shm, m: Memory, tree: nat, bank: nat, p: nat)
    requires Prepared(cfg, g, s) && Follows(s.ts, s.host, m, s.sys.mem) && Allowed(cfg, s.sys, NewTree(tree, bank)) && Routed(s.sys.mem, bank)
    requires FreshHost(s.ts, p, PAGE_4KB) && WithinWindows(Step(cfg, s.sys, NewTree(tree, bank)).mem, g)
    ensures var s' := Shm(Step(cfg, s.sys, NewTree(tree, bank)), MapReserved(s.ts, s.sys.mem, bank, PAGE_4KB, p), s.host);
      Prepared(cfg, g, s') && Follows(s'.ts, s'.host, m, s'.sys.mem)
  {
    hide WellFormed, Owned, ValidPhysical, AlignedPool, OwnsAll, BlocksBacked, Separate, Mirrors, KeysInUse, MapReserved, FreshHost, WithinWindows, LeafSize,
         PhysicalMemory.Reserve, HasArena;
    StepKeepsOwners(cfg, g, s.sys, NewTree(tree, bank));
    ReserveStaysBacked(s.ts, s.host, m, s.sys.mem, g, bank, PAGE_4KB, p);
    RootKeepsOwnsAll(cfg, s.sys.nodes, Root(cfg, tree), Step(cfg, s.sys, NewTree(tree, bank)).nodes[Root(cfg, tree)]);
  }

  lemma RootKeepsOwnsAll(cfg: Config, nodes: Forest, r: Slot, n: Node)
    requires ValidConfig(cfg) && WellFormed(cfg, nodes) && OwnsAll(nodes) && r !in nodes && IsTable(n.kind)
    ensures OwnsAll(nodes[r := n])
  {
    hide WellFormed, LeafSize;
    var b := nodes[r := n];
    forall s | s in b && !IsTable(b[s].kind) ensures b[s].reserved == LeafSize(b, s) { LeafSizeStays(cfg, nodes, b, s); }
  }
}
