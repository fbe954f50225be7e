/** Bytes written through one address space and read back, with page tables living in the same memory as the data. */
module EndToEnd {
  import opened Wrappers
  import opened Arithmetic
  import opened FrameAllocator
  import opened PhysicalMemory
  import opened PageTables
  import opened WalkModel
  import opened TreeFacts
  import opened WalkLookup
  import opened WalkStream
  import opened WalkStreamed
  import opened FrameOwnership
  import opened Streams
  import opened StreamCoherence
  import opened System
  import opened DecodedWalks
  import opened MapOverride
  import opened WalkShape
  import Packets

  type Byte = Packets.Byte

  datatype Place = Place(local: bool, addr: nat)

  /** The simulator's memory, byte by byte. */
  type Memory = map<Place, Byte>

  function Get(m: Memory, p: Place): Byte {
    if p in m then m[p] else 0
  }

  function StoreBytes(m: Memory, at: Place, data: seq<Byte>): Memory
    decreases |data|
  {
    if data == [] then m else StoreBytes(m[at := data[0]], Place(at.local, at.addr + 1), data[1..])
  }

  /** Data laid over stretches of physical memory, in order. */
  function PutRuns(m: Memory, runs: seq<Run>, data: seq<Byte>): Memory
    requires TotalSize(runs) <= |data|
    decreases |runs|
  {
    if runs == [] then m
    else PutRuns(StoreBytes(m, Place(runs[0].local, runs[0].phys), data[..runs[0].size]), runs[1..], data[runs[0].size..])
  }

  function ReadRun(m: Memory, run: Run): seq<Byte> {
    seq<Byte>(run.size, k requires 0 <= k < run.size => Get(m, Place(run.local, run.phys + k)))
  }

  function ReadRuns(m: Memory, runs: seq<Run>): seq<Byte> {
    if runs == [] then [] else ReadRun(m, runs[0]) + ReadRuns(m, runs[1..])
  }

  /** Table entries are eight bytes each; `bits` gives their encoding. */
  function PutEntries(m: Memory, local: bool, list: seq<PageEntryInfo>, bits: Entry -> seq<Byte>): Memory
    decreases |list|
  {
    if list == [] then m
    else PutEntries(StoreBytes(m, Place(local, list[0].address), bits(list[0].entry)), local, list[1..], bits)
  }

  function PutLevels(m: Memory, local: bool, table: PerLevel<PageEntryInfo>, level: nat, bits: Entry -> seq<Byte>): Memory
    requires level <= 5
    decreases level
  {
    if level == 0 then m else PutLevels(PutEntries(m, local, table[level - 1], bits), local, table, level - 1, bits)
  }

  ghost predicate EightBytes(bits: Entry -> seq<Byte>) {
    forall e :: |bits(e)| == 8
  }

  // ---- stores ----

  lemma {:induction false} StoreBytesGet(m: Memory, at: Place, data: seq<Byte>, p: Place)
    ensures Get(StoreBytes(m, at, data), p) ==
            if p.local == at.local && at.addr <= p.addr < at.addr + |data| then data[p.addr - at.addr] else Get(m, p)
    ensures p in StoreBytes(m, at, data) <==> (p.local == at.local && at.addr <= p.addr < at.addr + |data|) || p in m
    decreases |data|
  {
    if data != [] { StoreBytesGet(m[at := data[0]], Place(at.local, at.addr + 1), data[1..], p); }
  }

  lemma {:induction false} PutRunsOther(m: Memory, runs: seq<Run>, data: seq<Byte>, p: Place)
    requires TotalSize(runs) <= |data|
    requires forall j :: 0 <= j < TotalSize(runs) ==> ByteTarget(runs, j) != Some(Target(p.addr, p.local))
    ensures Get(PutRuns(m, runs, data), p) == Get(m, p) && (p in PutRuns(m, runs, data) <==> p in m)
    decreases |runs|
  {
    if runs != [] {
      StoreBytesGet(m, Place(runs[0].local, runs[0].phys), data[..runs[0].size], p);
      assert p.local == runs[0].local && runs[0].phys <= p.addr < runs[0].phys + runs[0].size ==>
        ByteTarget(runs, p.addr - runs[0].phys) == Some(Target(p.addr, p.local));
      forall j | 0 <= j < TotalSize(runs[1..]) ensures ByteTarget(runs[1..], j) != Some(Target(p.addr, p.local)) {
        assert ByteTarget(runs, j + runs[0].size) == ByteTarget(runs[1..], j);
      }
      PutRunsOther(StoreBytes(m, Place(runs[0].local, runs[0].phys), data[..runs[0].size]), runs[1..], data[runs[0].size..], p);
    }
  }

  /** When no two bytes go to one place, every byte ends up at its place. */
  lemma {:induction false} PutRunsAt(m: Memory, runs: seq<Run>, data: seq<Byte>, j: nat, p: Place)
    requires TotalSize(runs) <= |data| && j < TotalSize(runs) && ByteTarget(runs, j) == Some(Target(p.addr, p.local))
    requires forall i :: 0 <= i < TotalSize(runs) && i != j ==> ByteTarget(runs, i) != ByteTarget(runs, j)
    ensures Get(PutRuns(m, runs, data), p) == data[j] && p in PutRuns(m, runs, data)
    decreases |runs|
  {
    var m1 := StoreBytes(m, Place(runs[0].local, runs[0].phys), data[..runs[0].size]);
    forall i: nat | i < TotalSize(runs[1..]) ensures ByteTarget(runs[1..], i) == ByteTarget(runs, i + runs[0].size) {}
    if j < runs[0].size {
      StoreBytesGet(m, Place(runs[0].local, runs[0].phys), data[..runs[0].size], p);
      PutRunsOther(m1, runs[1..], data[runs[0].size..], p);
    } else {
      PutRunsAt(m1, runs[1..], data[runs[0].size..], j - runs[0].size, p);
    }
  }

  lemma {:induction false} ReadRunsAt(m: Memory, runs: seq<Run>, j: nat)
    requires j < TotalSize(runs)
    ensures |ReadRuns(m, runs)| == TotalSize(runs)
    ensures ByteTarget(runs, j).Some?
    ensures var t := ByteTarget(runs, j).value; ReadRuns(m, runs)[j] == Get(m, Place(t.local, t.phys))
    decreases |runs|
  {
    ReadRunsLength(m, runs);
    if j >= runs[0].size { ReadRunsAt(m, runs[1..], j - runs[0].size); ReadRunsLength(m, runs[1..]); }
  }

  lemma {:induction false} ReadRunsLength(m: Memory, runs: seq<Run>)
    ensures |ReadRuns(m, runs)| == TotalSize(runs)
    decreases |runs|
  {
    if runs != [] { ReadRunsLength(m, runs[1..]); }
  }

  /** The place lies in none of the listed entries. */
  ghost predicate MissesEntries(list: seq<PageEntryInfo>, local: bool, p: Place) {
    forall i :: 0 <= i < |list| ==> p.local != local || p.addr < list[i].address || list[i].address + 8 <= p.addr
  }

  lemma {:induction false} PutEntriesOther(m: Memory, local: bool, list: seq<PageEntryInfo>, bits: Entry -> seq<Byte>, p: Place)
    requires EightBytes(bits) && MissesEntries(list, local, p)
    ensures Get(PutEntries(m, local, list, bits), p) == Get(m, p) && (p in PutEntries(m, local, list, bits) <==> p in m)
    decreases |list|
  {
    if list != [] {
      StoreBytesGet(m, Place(local, list[0].address), bits(list[0].entry), p);
      PutEntriesOther(StoreBytes(m, Place(local, list[0].address), bits(list[0].entry)), local, list[1..], bits, p);
    }
  }

  lemma {:induction false} PutLevelsOther(m: Memory, local: bool, table: PerLevel<PageEntryInfo>, level: nat, bits: Entry -> seq<Byte>, p: Place)
    requires level <= 5 && EightBytes(bits) && forall l :: 0 <= l < 5 ==> MissesEntries(table[l], local, p)
    ensures Get(PutLevels(m, local, table, level, bits), p) == Get(m, p) && (p in PutLevels(m, local, table, level, bits) <==> p in m)
    decreases level
  {
    hide PutEntries, EightBytes, MissesEntries;
    if level > 0 {
      PutEntriesOther(m, local, table[level - 1], bits, p);
      PutLevelsOther(PutEntries(m, local, table[level - 1], bits), local, table, level - 1, bits, p);
    }
  }

  // ---- places of bytes ----

  /** Every leaf lies in a frame of its own, as after reservations only. */
  ghost predicate OwnsAll(nodes: Forest) {
    forall s :: s in nodes && !IsTable(nodes[s].kind) ==> nodes[s].reserved == LeafSize(nodes, s)
  }

  /** A mapped byte lies inside the frame of its leaf. */
  lemma ByteInFrame(cfg: Config, nodes: Forest, tree: nat, x: nat)
    requires WellFormed(cfg, nodes) && OwnsAll(nodes) && LeafOf(cfg, nodes, tree, x).Some?
    ensures var s := LeafOf(cfg, nodes, tree, x).value; var t := Translate(cfg, nodes, tree, x).value;
      && Translate(cfg, nodes, tree, x).Some? && !IsTable(nodes[s].kind) && nodes[s].reserved > 0
      && nodes[s].phys <= t.phys < nodes[s].phys + nodes[s].reserved && t.local == (nodes[s].bank != 0)
  {
    hide WellFormed, LeafOf, LeafSize;
    LeafNotTable(cfg, nodes, tree, x);
  }

  lemma LeafNotTable(cfg: Config, nodes: Forest, tree: nat, x: nat)
    requires WellFormed(cfg, nodes) && LeafOf(cfg, nodes, tree, x).Some?
    ensures !IsTable(nodes[LeafOf(cfg, nodes, tree, x).value].kind)
  {
    hide WellFormed, LeafSlot;
    var s := LeafOf(cfg, nodes, tree, x).value;
    LeafSlotLevel(cfg, tree, nodes[TableSlot(tree, 1, x)].kind, x);
    if s.level == 0 { LeafUnderTable(cfg, nodes, s); }
  }

  /** Banks of the same kind are served by allocators of the same kind, whether or not local banks have their own. */
  lemma SameKind(nodes: Forest, mem: Physical, g: Layout, s: Slot, t: Slot)
    requires Sane(nodes, mem, g, Everyone) && s in nodes && t in nodes && (nodes[s].bank != 0) == (nodes[t].bank != 0)
    ensures (ArenaFor(mem, nodes[s]) == 0) == (ArenaFor(mem, nodes[t]) == 0)
  {
    hide Owned, AlignedPool;
  }

  lemma FramesApart(nodes: Forest, mem: Physical, g: Layout, s: Slot, t: Slot)
    requires Sane(nodes, mem, g, Everyone) && WithinWindows(mem, g) && s in nodes && t in nodes && s != t
    requires nodes[s].reserved > 0 && nodes[t].reserved > 0 && (nodes[s].bank != 0) == (nodes[t].bank != 0)
    ensures FrameAllocator.Disjoint(FrameOf(nodes[s]), FrameOf(nodes[t]))
  {
    hide Sane, WithinWindows, ArenaOf, FrameAllocator.Disjoint;
    SameKind(nodes, mem, g, s, t);
    OwnedFramesDisjoint(nodes, mem, g, Everyone, s, t);
  }

  /** Two different virtual bytes, of one address space or two, never share a physical one. */
  lemma TranslateIsInjective(cfg: Config, nodes: Forest, mem: Physical, g: Layout, tree: nat, x: nat, tree': nat, y: nat)
    requires WellFormed(cfg, nodes) && Sane(nodes, mem, g, Everyone) && WithinWindows(mem, g) && OwnsAll(nodes)
    requires LeafOf(cfg, nodes, tree, x).Some? && LeafOf(cfg, nodes, tree', y).Some? && (tree != tree' || x != y)
    ensures Translate(cfg, nodes, tree, x) != Translate(cfg, nodes, tree', y)
  {
    hide WellFormed, Sane, WithinWindows, LeafOf, LeafSize, OwnsAll;
    var s, t := LeafOf(cfg, nodes, tree, x).value, LeafOf(cfg, nodes, tree', y).value;
    ByteInFrame(cfg, nodes, tree, x);
    ByteInFrame(cfg, nodes, tree', y);
    LeafTree(cfg, nodes, tree, x);
    LeafTree(cfg, nodes, tree', y);
    if s == t {
      SameLeafSamePage(cfg, nodes, tree, x, y);
      SamePageDifferentOffset(x, y, LeafSize(nodes, s));
    } else if (nodes[s].bank != 0) == (nodes[t].bank != 0) {
      FramesApart(nodes, mem, g, s, t);
    }
  }

  lemma SamePageDifferentOffset(x: nat, y: nat, unit: nat)
    requires unit > 0 && x / unit == y / unit && x != y
    ensures x % unit != y % unit
  {
    assert x == x / unit * unit + x % unit && y == y / unit * unit + y % unit;
  }

  /** Table entries lie in table frames, and so miss every mapped byte. */
  lemma EntriesMissData(cfg: Config, n0: Forest, w: Walk, mem: Physical, g: Layout, l: nat, tree: nat, x: nat)
    requires ValidConfig(cfg) && WellFormed(cfg, w.nodes) && Sane(w.nodes, mem, g, Everyone) && WithinWindows(mem, g)
    requires OwnsAll(w.nodes) && Queued(cfg, n0, w, {}) && l < 5 && LeafOf(cfg, w.nodes, tree, x).Some?
    ensures var t := Translate(cfg, w.nodes, tree, x);
      t.Some? && MissesEntries(w.table[l], RootLocal(cfg, w.nodes, w.tree), Place(t.value.local, t.value.phys))
  {
    hide WellFormed, Sane, WithinWindows, LeafOf, LeafSize, OwnsAll, QuietOk, EmittedOk, PendingOk, ListsOk, RootLocal;
    ByteInFrame(cfg, w.nodes, tree, x);
    var t := Translate(cfg, w.nodes, tree, x).value;
    forall i | 0 <= i < |w.table[l]|
      ensures t.local != RootLocal(cfg, w.nodes, w.tree) || t.phys < w.table[l][i].address || w.table[l][i].address + 8 <= t.phys {
      assert Hangs(w, w.table[l][i].slot);
      EntryMissesLeaf(cfg, w.nodes, mem, g, w.table[l][i].slot, LeafOf(cfg, w.nodes, tree, x).value, w.tree, t.phys);
    }
  }

  lemma EntryMissesLeaf(cfg: Config, nodes: Forest, mem: Physical, g: Layout, s: Slot, leaf: Slot, tree: nat, at: nat)
    requires ValidConfig(cfg) && WellFormed(cfg, nodes) && Sane(nodes, mem, g, Everyone) && WithinWindows(mem, g)
    requires s in nodes && s.tree == tree && Parent(s) in nodes && leaf in nodes && !IsTable(nodes[leaf].kind) && nodes[leaf].reserved > 0
    requires nodes[leaf].phys <= at < nodes[leaf].phys + nodes[leaf].reserved
    ensures (nodes[leaf].bank != 0) != RootLocal(cfg, nodes, tree) || at < EntryAddress(nodes, s) || EntryAddress(nodes, s) + 8 <= at
  {
    hide WellFormed, Sane, WithinWindows;
    var p := Parent(s);
    BelowRoot(cfg, nodes, s);
    ParentTable(cfg, nodes, s);
    TableBank(cfg, nodes, p);
    TableFrameSize(nodes, mem, g, Everyone, p);
    if (nodes[leaf].bank != 0) == (nodes[p].bank != 0) {
      FramesApart(nodes, mem, g, p, leaf);
    }
  }

  // ---- reservations keep lookups and ownership ----

  predicate Reserves(q: Request) {
    q.pageSize > 0 && q.mode.Reserve? && !q.mapping
  }

  lemma VisitKeepsLeaves(cfg: Config, q: Request, w: Walk, va: nat, target: nat, info: PageInfo, v: Visit)
    requires Reserves(q) && Shaped(cfg, q, w, va, target, info, v) && Visited(cfg, q, w, va, v) && ValidConfig(cfg)
    requires OwnsAll(w.nodes) && WellFormed(cfg, w.nodes)
    ensures Evolves(w.nodes, v.w.nodes, None) && OwnsAll(v.w.nodes)
  {
    hide WellFormed, LeafSlot, BankAt, Landing, PlannedLeaf, PlannedKind, RoundDown, LeafOf, LeafSize;
    forall s | s in v.w.nodes && !IsTable(v.w.nodes[s].kind) ensures v.w.nodes[s].reserved == LeafSize(v.w.nodes, s) {
      if s in w.nodes {
        LeafSizeStays(cfg, w.nodes, v.w.nodes, s);
      } else {
        assert Some(s) == v.leaf;
      }
    }
  }

  lemma LeafSizeStays(cfg: Config, a: Forest, b: Forest, s: Slot)
    requires ValidConfig(cfg) && WellFormed(cfg, a) && s in a && !IsTable(a[s].kind)
    requires forall x :: x in a ==> x in b && b[x].kind == a[x].kind
    ensures LeafSize(b, s) == LeafSize(a, s)
  {
    assert Placed(cfg, a, s);
  }

  lemma EvolvesTransitive(a: Forest, b: Forest, c: Forest)
    requires Evolves(a, b, None) && Evolves(b, c, None)
    ensures Evolves(a, c, None)
  {
  }

  lemma {:induction false} WalkKeepsLeaves(cfg: Config, q: Request, w: Walk, va: nat, size: nat, target: nat, i: nat)
    requires Sound(cfg, q, w.nodes) && FitsIn(cfg, va, size) && Reserves(q) && OwnsAll(w.nodes)
    ensures var r := WalkFrom(cfg, q, w, va, size, target, i).0; Evolves(w.nodes, r.nodes, None) && OwnsAll(r.nodes)
    decreases size
  {
    hide PageVisit, WellFormed, LeafOf, LeafSize, BankAt, FitsIn, GrowsOnPath, LeafFits, PageEnd, Shaped, OwnsAll, Evolves;
    EvolvesSelf(w.nodes);
    if size > 0 {
      var v := PageVisit(cfg, q, w, va, size, target, InfoAt(q, i));
      TurnFacts(cfg, q, w, va, size, target, InfoAt(q, i));
      WalkTurn(cfg, q, w, va, size, target, i);
      PageVisitShape(cfg, q, w, va, size, target, InfoAt(q, i));
      VisitKeepsLeaves(cfg, q, w, va, target, InfoAt(q, i), v);
      var step := PageStep(v.pageSize, va, size);
      var next := Report(v, va, size, BankAt(q, va));
      WalkKeepsLeaves(cfg, q, next, va + step, size - step, NextTarget(v, va, size), i + 1);
      EvolvesTransitive(w.nodes, v.w.nodes, WalkFrom(cfg, q, w, va, size, target, i).0.nodes);
    }
  }

  lemma EvolvesSelf(a: Forest)
    ensures Evolves(a, a, None)
  {
  }

  /** A byte once mapped keeps its place. */
  lemma EvolvesKeepsTranslate(cfg: Config, a: Forest, b: Forest, tree: nat, x: nat)
    requires WellFormed(cfg, a) && Evolves(a, b, None) && LeafOf(cfg, a, tree, x).Some?
    ensures LeafOf(cfg, b, tree, x) == LeafOf(cfg, a, tree, x) && Translate(cfg, b, tree, x) == Translate(cfg, a, tree, x)
  {
    hide WellFormed, LeafOf, LeafSize;
    LeafKept(cfg, a, b, None, tree, x);
  }

  // ---- calls ----

  datatype Call = Call(q: Request, data: seq<Byte>)

  /** writeMemory: the walk, its table entries, then the data over the pages it reported. */
  function WriteMemory(cfg: Config, sys: System, m: Memory, c: Call, bits: Entry -> seq<Byte>): (System, Memory)
    requires cfg.levels <= 5 && c.q.pageSize > 0
  {
    var w := WalkMemory(cfg, c.q, sys.nodes, sys.mem, 0).0;
    var m1 := PutLevels(m, RootLocal(cfg, w.nodes, w.tree), w.table, 5, bits);
    (Step(cfg, sys, WalkTree(c.q, 0)), if TotalSize(Runs(w.entries)) <= |c.data| then PutRuns(m1, Runs(w.entries), c.data) else m1)
  }

  /** readMemory: a walk that creates nothing, then the bytes of the pages it reported. */
  function ReadMemory(cfg: Config, sys: System, m: Memory, q: Request): seq<Byte>
    requires cfg.levels <= 5 && q.pageSize > 0
  {
    ReadRuns(m, Runs(WalkMemory(cfg, q, sys.nodes, sys.mem, 0).0.entries))
  }

  ghost predicate Calm(cfg: Config, g: Layout, sys: System) {
    && ValidConfig(cfg) && WellFormed(cfg, sys.nodes) && Sane(sys.nodes, sys.mem, g, Everyone) && OwnsAll(sys.nodes)
    && WithinWindows(sys.mem, g)
  }

  ghost predicate CallOk(cfg: Config, sys: System, c: Call) {
    Reserves(c.q) && |c.data| == c.q.size && Allowed(cfg, sys, WalkTree(c.q, 0))
  }

  /** The facts of one reserving walk, gathered. */
  lemma ReservingWalk(cfg: Config, g: Layout, sys: System, q: Request)
    requires Calm(cfg, g, sys) && Reserves(q) && Allowed(cfg, sys, WalkTree(q, 0))
    requires WithinWindows(Step(cfg, sys, WalkTree(q, 0)).mem, g)
    ensures var (w, ending) := WalkMemory(cfg, q, sys.nodes, sys.mem, 0); var sys' := Step(cfg, sys, WalkTree(q, 0));
      && ending == Completed && Queued(cfg, sys.nodes, w, {}) && w.tree == q.tree && sys'.mem == w.mem
      && Calm(cfg, g, sys') && Calm(cfg, g, System(w.nodes, w.mem, sys.st)) && Root(cfg, q.tree) in sys'.nodes
      && Evolves(sys.nodes, w.nodes, None) && Evolves(w.nodes, sys'.nodes, None) && sys'.nodes.Keys == w.nodes.Keys
      && Runs(w.entries) == Pages(cfg, w.nodes, q.tree, q.gfx, q.size) && TotalSize(Runs(w.entries)) == q.size
  {
    hide WellFormed, Sane, WalkFrom, Commit, BanksExist, FitsIn, WithinWindows, Queued, TablesKept, OwnsAll, Runs, Pages, Evolves, Coherent;
    var w0 := Start(q.tree, sys.nodes, sys.mem);
    WalkStepOwners(cfg, g, sys, q, 0);
    var w := WalkMemory(cfg, q, sys.nodes, sys.mem, 0).0;
    WalkKeepsLeaves(cfg, q, w0, q.gfx, q.size, 0, 0);
    WalkMatchesLookup(cfg, q, w0, q.gfx, q.size, 0, 0);
    assert Runs(w0.entries) + Pages(cfg, w.nodes, q.tree, q.gfx, q.size) == Pages(cfg, w.nodes, q.tree, q.gfx, q.size) by { StartRuns(w0); }
    CommitKeepsTree(cfg, g, sys.nodes, w, sys.st, Everyone);
    SizesStay(cfg, w.nodes, Step(cfg, sys, WalkTree(q, 0)).nodes);
  }

  lemma StartRuns(w: Walk)
    requires w.entries == []
    ensures Runs(w.entries) == []
  {
  }

  lemma SizesStay(cfg: Config, a: Forest, b: Forest)
    requires ValidConfig(cfg) && WellFormed(cfg, a) && Evolves(a, b, None) && b.Keys == a.Keys && OwnsAll(a)
    ensures OwnsAll(b)
  {
    hide WellFormed, LeafSize;
    forall s | s in b && !IsTable(b[s].kind) ensures b[s].reserved == LeafSize(b, s) { LeafSizeStays(cfg, a, b, s); }
  }

  /** Where the walk puts byte j of its data. */
  lemma BytePlace(cfg: Config, nodes: Forest, tree: nat, va: nat, size: nat, j: nat)
    requires WellFormed(cfg, nodes) && TotalSize(Pages(cfg, nodes, tree, va, size)) == size && j < size
    ensures ByteTarget(Pages(cfg, nodes, tree, va, size), j) == Translate(cfg, nodes, tree, va + j)
    ensures LeafOf(cfg, nodes, tree, va + j).Some?
  {
    hide WellFormed, LeafOf, Pages, LeafSize;
    PagesAreBytes(cfg, nodes, tree, va, size, j);
    TargetExists(Pages(cfg, nodes, tree, va, size), j);
  }

  lemma {:induction false} TargetExists(runs: seq<Run>, j: nat)
    requires j < TotalSize(runs)
    ensures ByteTarget(runs, j).Some?
    decreases |runs|
  {
    if j >= runs[0].size { TargetExists(runs[1..], j - runs[0].size); }
  }

  /** What was asked for is mapped, and the byte at its place is as written. */
  ghost predicate Holds(cfg: Config, sys: System, m: Memory, tree: nat, x: nat, b: Byte) {
    LeafOf(cfg, sys.nodes, tree, x).Some? && Translate(cfg, sys.nodes, tree, x).Some?
    && var t := Translate(cfg, sys.nodes, tree, x).value; Place(t.local, t.phys) in m && Get(m, Place(t.local, t.phys)) == b
  }

  lemma EntriesLeaveByte(cfg: Config, g: Layout, sys: System, m: Memory, q: Request, bits: Entry -> seq<Byte>, tree: nat, x: nat)
    requires Calm(cfg, g, sys) && Reserves(q) && Allowed(cfg, sys, WalkTree(q, 0)) && EightBytes(bits)
    requires WithinWindows(Step(cfg, sys, WalkTree(q, 0)).mem, g)
    requires LeafOf(cfg, WalkMemory(cfg, q, sys.nodes, sys.mem, 0).0.nodes, tree, x).Some?
    ensures var w := WalkMemory(cfg, q, sys.nodes, sys.mem, 0).0; var t := Translate(cfg, w.nodes, tree, x);
      && t.Some?
      && Get(PutLevels(m, RootLocal(cfg, w.nodes, w.tree), w.table, 5, bits), Place(t.value.local, t.value.phys))
         == Get(m, Place(t.value.local, t.value.phys))
      && (Place(t.value.local, t.value.phys) in PutLevels(m, RootLocal(cfg, w.nodes, w.tree), w.table, 5, bits)
          <==> Place(t.value.local, t.value.phys) in m)
  {
    hide WellFormed, Sane, WalkMemory, WithinWindows, Queued, OwnsAll, LeafOf, Step, Allowed, EightBytes, MissesEntries, PutLevels, Runs, Pages, Evolves, LeafSize;
    ReservingWalk(cfg, g, sys, q);
    var w := WalkMemory(cfg, q, sys.nodes, sys.mem, 0).0;
    var t := Translate(cfg, w.nodes, tree, x).value;
    forall l | 0 <= l < 5 ensures MissesEntries(w.table[l], RootLocal(cfg, w.nodes, w.tree), Place(t.local, t.phys)) {
      EntriesMissData(cfg, sys.nodes, w, w.mem, g, l, tree, x);
    }
    PutLevelsOther(m, RootLocal(cfg, w.nodes, w.tree), w.table, 5, bits, Place(t.local, t.phys));
  }

  lemma SamePlaces(cfg: Config, a: Forest, b: Forest, tree: nat, x: nat)
    requires WellFormed(cfg, a) && Evolves(a, b, None) && b.Keys == a.Keys
    ensures LeafOf(cfg, a, tree, x).Some? ==> Translate(cfg, b, tree, x) == Translate(cfg, a, tree, x) && LeafOf(cfg, b, tree, x).Some?
  {
    hide WellFormed, LeafOf, LeafSize;
    if LeafOf(cfg, a, tree, x).Some? { EvolvesKeepsTranslate(cfg, a, b, tree, x); }
  }

  /** The bytes of a write are where their addresses now lead. */
  lemma WriteHolds(cfg: Config, g: Layout, sys: System, m: Memory, c: Call, bits: Entry -> seq<Byte>, j: nat)
    requires Calm(cfg, g, sys) && CallOk(cfg, sys, c) && EightBytes(bits) && j < c.q.size
    requires WithinWindows(Step(cfg, sys, WalkTree(c.q, 0)).mem, g)
    ensures var (sys', m') := WriteMemory(cfg, sys, m, c, bits); Holds(cfg, sys', m', c.q.tree, c.q.gfx + j, c.data[j])
  {
    hide WellFormed, Sane, WalkMemory, WithinWindows, Queued, OwnsAll, LeafOf, LeafSize, Step, Allowed, EightBytes, PutLevels, Runs, Pages, Evolves, PutRuns, Get;
    ReservingWalk(cfg, g, sys, c.q);
    var w := WalkMemory(cfg, c.q, sys.nodes, sys.mem, 0).0;
    var sys' := Step(cfg, sys, WalkTree(c.q, 0));
    var runs := Runs(w.entries);
    var m1 := PutLevels(m, RootLocal(cfg, w.nodes, w.tree), w.table, 5, bits);
    BytePlace(cfg, w.nodes, c.q.tree, c.q.gfx, c.q.size, j);
    forall i | 0 <= i < TotalSize(runs) && i != j ensures ByteTarget(runs, i) != ByteTarget(runs, j) {
      BytePlace(cfg, w.nodes, c.q.tree, c.q.gfx, c.q.size, i);
      TranslateIsInjective(cfg, w.nodes, w.mem, g, c.q.tree, c.q.gfx + i, c.q.tree, c.q.gfx + j);
    }
    var t := Translate(cfg, w.nodes, c.q.tree, c.q.gfx + j).value;
    PutRunsAt(m1, runs, c.data, j, Place(t.local, t.phys));
    SamePlaces(cfg, w.nodes, sys'.nodes, c.q.tree, c.q.gfx + j);
  }

  /** A later write elsewhere, in this address space or another, leaves a byte alone; so do its page tables. */
  lemma LaterWriteKeeps(cfg: Config, g: Layout, sys: System, m: Memory, c: Call, bits: Entry -> seq<Byte>, tree: nat, x: nat, b: Byte)
    requires Calm(cfg, g, sys) && CallOk(cfg, sys, c) && EightBytes(bits)
    requires WithinWindows(Step(cfg, sys, WalkTree(c.q, 0)).mem, g)
    requires Holds(cfg, sys, m, tree, x, b) && !(c.q.tree == tree && c.q.gfx <= x < c.q.gfx + c.q.size)
    ensures var (sys', m') := WriteMemory(cfg, sys, m, c, bits); Holds(cfg, sys', m', tree, x, b)
  {
    hide WellFormed, Sane, WalkMemory, WithinWindows, Queued, OwnsAll, LeafOf, LeafSize, Step, Allowed, EightBytes, PutLevels, Runs, Pages, Evolves, PutRuns, Get;
    ReservingWalk(cfg, g, sys, c.q);
    var w := WalkMemory(cfg, c.q, sys.nodes, sys.mem, 0).0;
    var sys' := Step(cfg, sys, WalkTree(c.q, 0));
    var runs := Runs(w.entries);
    var m1 := PutLevels(m, RootLocal(cfg, w.nodes, w.tree), w.table, 5, bits);
    EvolvesKeepsTranslate(cfg, sys.nodes, w.nodes, tree, x);
    EntriesLeaveByte(cfg, g, sys, m, c.q, bits, tree, x);
    var t := Translate(cfg, w.nodes, tree, x).value;
    forall j | 0 <= j < TotalSize(runs) ensures ByteTarget(runs, j) != Some(Target(t.phys, t.local)) {
      BytePlace(cfg, w.nodes, c.q.tree, c.q.gfx, c.q.size, j);
      TranslateIsInjective(cfg, w.nodes, w.mem, g, tree, x, c.q.tree, c.q.gfx + j);
    }
    PutRunsOther(m1, runs, c.data, Place(t.local, t.phys));
    SamePlaces(cfg, w.nodes, sys'.nodes, tree, x);
  }

  function WriteAll(cfg: Config, sys: System, m: Memory, calls: seq<Call>, bits: Entry -> seq<Byte>): (System, Memory)
    requires cfg.levels <= 5 && forall c :: c in calls ==> c.q.pageSize > 0
    decreases |calls|
  {
    if calls == [] then (sys, m)
    else var (sys1, m1) := WriteMemory(cfg, sys, m, calls[0], bits); WriteAll(cfg, sys1, m1, calls[1..], bits)
  }

  /** Every later call is legal when it comes, and writes other bytes; the allocators stay in their windows. */
  ghost predicate LaterCalls(cfg: Config, g: Layout, sys: System, calls: seq<Call>, tree: nat, x: nat)
    requires cfg.levels <= 5 && forall c :: c in calls ==> c.q.pageSize > 0
    decreases |calls|
  {
    calls == []
    || (&& CallOk(cfg, sys, calls[0]) && !(calls[0].q.tree == tree && calls[0].q.gfx <= x < calls[0].q.gfx + calls[0].q.size)
        && WithinWindows(Step(cfg, sys, WalkTree(calls[0].q, 0)).mem, g)
        && LaterCalls(cfg, g, Step(cfg, sys, WalkTree(calls[0].q, 0)), calls[1..], tree, x))
  }

  lemma {:induction false} LaterWritesKeep(cfg: Config, g: Layout, sys: System, m: Memory, calls: seq<Call>, bits: Entry -> seq<Byte>, tree: nat, x: nat, b: Byte)
    requires Calm(cfg, g, sys) && EightBytes(bits) && Holds(cfg, sys, m, tree, x, b)
    requires forall c :: c in calls ==> c.q.pageSize > 0
    requires LaterCalls(cfg, g, sys, calls, tree, x)
    ensures var (sys', m') := WriteAll(cfg, sys, m, calls, bits); Calm(cfg, g, sys') && Holds(cfg, sys', m', tree, x, b)
    decreases |calls|
  {
    hide Holds, EightBytes, Step, WalkMemory, WithinWindows, Evolves, Runs, Pages, PutRuns, PutLevels, Queued;
    if calls != [] {
      LaterWriteKeeps(cfg, g, sys, m, calls[0], bits, tree, x, b);
      ReservingWalk(cfg, g, sys, calls[0].q);
      var (sys1, m1) := WriteMemory(cfg, sys, m, calls[0], bits);
      LaterWritesKeep(cfg, g, sys1, m1, calls[1..], bits, tree, x, b);
    }
  }

  /** A read of mapped bytes returns what their places hold. */
  lemma ReadReturns(cfg: Config, g: Layout, sys: System, m: Memory, q: Request, data: seq<Byte>)
    requires Calm(cfg, g, sys) && q.pageSize > 0 && q.mode.Expect? && !q.mapping && Root(cfg, q.tree) in sys.nodes && FitsIn(cfg, q.gfx, q.size)
    requires |data| == q.size && forall j :: 0 <= j < q.size ==> Holds(cfg, sys, m, q.tree, q.gfx + j, data[j])
    ensures ReadMemory(cfg, sys, m, q) == data
  {
    hide WellFormed, Sane, WalkFrom, WithinWindows, OwnsAll, LeafOf, LeafSize, Runs, Pages, FitsIn, Get;
    var w0 := Start(q.tree, sys.nodes, sys.mem);
    var (w, ending) := WalkMemory(cfg, q, sys.nodes, sys.mem, 0);
    WalkMatchesLookup(cfg, q, w0, q.gfx, q.size, 0, 0);
    StartRuns(w0);
    var runs := Runs(w.entries);
    assert runs == Pages(cfg, w.nodes, q.tree, q.gfx, q.size);
    forall x | q.gfx <= x < q.gfx + q.size
      ensures LeafOf(cfg, w.nodes, q.tree, x).Some? && Translate(cfg, w.nodes, q.tree, x) == Translate(cfg, sys.nodes, q.tree, x) {
      assert Holds(cfg, sys, m, q.tree, q.gfx + (x - q.gfx), data[x - q.gfx]);
      ExpectKeeps(cfg, q, w0, q.gfx, q.size, 0, 0, q.tree, x);
    }
    MappedRunsFill(cfg, w.nodes, q.tree, q.gfx, q.size);
    ReadRunsLength(m, runs);
    WalkStaysSound(cfg, q, w0, q.gfx, q.size, 0, 0);
    forall j | 0 <= j < q.size ensures ReadRuns(m, runs)[j] == data[j] {
      ReadRunsAt(m, runs, j);
      BytePlace(cfg, w.nodes, q.tree, q.gfx, q.size, j);
      assert Holds(cfg, sys, m, q.tree, q.gfx + j, data[j]);
    }
  }

  /** The cut of a fully mapped range covers it. */
  lemma {:induction false} MappedRunsFill(cfg: Config, nodes: Forest, tree: nat, va: nat, size: nat)
    requires forall x :: va <= x < va + size ==> LeafOf(cfg, nodes, tree, x).Some?
    ensures TotalSize(Pages(cfg, nodes, tree, va, size)) == size
    decreases size
  {
    hide LeafOf, LeafSize;
    if size > 0 {
      var s := LeafOf(cfg, nodes, tree, va).value;
      var step := PageStep(LeafSize(nodes, s), va, size);
      PagesStart(cfg, nodes, tree, va, size, s);
      MappedRunsFill(cfg, nodes, tree, va + step, size - step);
      var rest := Pages(cfg, nodes, tree, va + step, size - step);
      assert ([Run(nodes[s].phys + va % LeafSize(nodes, s), step, nodes[s].bank != 0)] + rest)[1..] == rest;
    }
  }

  lemma ExpectVisitKeeps(cfg: Config, q: Request, w: Walk, va: nat, size: nat, target: nat, info: PageInfo)
    requires Ready(cfg, q, w.nodes, va) && q.mode.Expect? && !q.mapping
    ensures Evolves(w.nodes, PageVisit(cfg, q, w, va, size, target, info).w.nodes, None)
  {
    hide TablesDown, PdeStep, WellFormed, Span, GrowsOnPath, Evolves;
    RootIsTableSlot(cfg, q.tree, va);
    TablesDownFacts(cfg, q, w, va, cfg.levels - 1);
    var (w1, found) := TablesDown(cfg, q, w, va, cfg.levels - 1);
    if found {
      ExpectPdeKeeps(cfg, q, w1, va, size, target, info);
      EvolvesTransitive(w.nodes, w1.nodes, PageVisit(cfg, q, w, va, size, target, info).w.nodes);
    }
  }

  lemma ExpectPdeKeeps(cfg: Config, q: Request, w: Walk, va: nat, size: nat, target: nat, info: PageInfo)
    requires q.pageSize > 0 && q.mode.Expect? && !q.mapping
    ensures Evolves(w.nodes, PdeStep(cfg, q, w, va, size, BankAt(q, va), target, info).w.nodes, None)
  {
    hide PlainVisit, VisitLeaf, LeafSlot, Span, BankAt, Evolves;
    var p := TableSlot(q.tree, 1, va);
    EvolvesSelf(w.nodes);
    if p in w.nodes && !w.nodes[p].kind.Page2MB? {
      var w1 := PlainVisit(cfg, w, p, q.mapping);
      var s := LeafSlot(cfg, q.tree, w.nodes[p].kind, va);
      LeafSlotLevel(cfg, q.tree, w.nodes[p].kind, va);
      if s in w.nodes {
        assert PlaceLeaf(q, w1, s, Page, PteSize(w.nodes[p].kind), BankAt(q, va), target, info) == w1;
        VisitLeafKeeps(cfg, q, w1.nodes, w1, s, PteSize(w.nodes[p].kind), size);
      }
    }
  }

  /** Looking moves nothing. */
  lemma {:induction false} ExpectKeeps(cfg: Config, q: Request, w: Walk, va: nat, size: nat, target: nat, i: nat, tree: nat, x: nat)
    requires Sound(cfg, q, w.nodes) && FitsIn(cfg, va, size) && q.mode.Expect? && !q.mapping && LeafOf(cfg, w.nodes, tree, x).Some?
    ensures var r := WalkFrom(cfg, q, w, va, size, target, i).0;
      LeafOf(cfg, r.nodes, tree, x).Some? && Translate(cfg, r.nodes, tree, x) == Translate(cfg, w.nodes, tree, x)
    decreases size
  {
    hide PageVisit, WellFormed, LeafOf, LeafSize, BankAt, FitsIn, GrowsOnPath, LeafFits, PageEnd, Evolves, Translate;
    if size > 0 {
      var v := PageVisit(cfg, q, w, va, size, target, InfoAt(q, i));
      TurnFacts(cfg, q, w, va, size, target, InfoAt(q, i));
      WalkTurn(cfg, q, w, va, size, target, i);
      ExpectVisitKeeps(cfg, q, w, va, size, target, InfoAt(q, i));
      EvolvesKeepsTranslate(cfg, w.nodes, v.w.nodes, tree, x);
      if v.leaf.Some? {
        var step := PageStep(v.pageSize, va, size);
        ExpectKeeps(cfg, q, Report(v, va, size, BankAt(q, va)), va + step, size - step, NextTarget(v, va, size), i + 1, tree, x);
      }
    }
  }

  /** Write, then write anything elsewhere any number of times, then read: the bytes come back, whatever page sizes were
      asked for and however the tables grew in between. */
  lemma ReadAfterWrite(cfg: Config, g: Layout, sys: System, m: Memory, first: Call, later: seq<Call>, bits: Entry -> seq<Byte>, read: Request)
    requires Calm(cfg, g, sys) && CallOk(cfg, sys, first) && EightBytes(bits)
    requires WithinWindows(Step(cfg, sys, WalkTree(first.q, 0)).mem, g)
    requires forall c :: c in later ==> c.q.pageSize > 0
    requires forall x :: first.q.gfx <= x < first.q.gfx + first.q.size ==>
      LaterCalls(cfg, g, Step(cfg, sys, WalkTree(first.q, 0)), later, first.q.tree, x)
    requires read.tree == first.q.tree && read.gfx == first.q.gfx && read.size == first.q.size
    requires read.pageSize > 0 && read.mode.Expect? && !read.mapping
    ensures var (sys1, m1) := WriteMemory(cfg, sys, m, first, bits); var (sys2, m2) := WriteAll(cfg, sys1, m1, later, bits);
      ReadMemory(cfg, sys2, m2, read) == first.data
  {
    hide Holds, EightBytes, Step, WalkMemory, WithinWindows, Evolves, Runs, Pages, PutRuns, PutLevels, Queued, WriteAll, ReadMemory, Sane, WellFormed, OwnsAll;
    ReservingWalk(cfg, g, sys, first.q);
    var (sys1, m1) := WriteMemory(cfg, sys, m, first, bits);
    var (sys2, m2) := WriteAll(cfg, sys1, m1, later, bits);
    if read.size == 0 {
      ReadNothing(cfg, sys2, m2, read);
    } else {
      forall j | 0 <= j < read.size
        ensures Calm(cfg, g, sys2) && Holds(cfg, sys2, m2, read.tree, read.gfx + j, first.data[j]) {
        WriteHolds(cfg, g, sys, m, first, bits, j);
        LaterWritesKeep(cfg, g, sys1, m1, later, bits, read.tree, read.gfx + j, first.data[j]);
      }
      assert Holds(cfg, sys2, m2, read.tree, read.gfx + 0, first.data[0]);
      RootOfHeld(cfg, g, sys2, m2, read.tree, read.gfx, first.data[0]);
      ReadReturns(cfg, g, sys2, m2, read, first.data);
    }
  }

  lemma ReadNothing(cfg: Config, sys: System, m: Memory, q: Request)
    requires cfg.levels <= 5 && q.pageSize > 0 && q.size == 0
    ensures ReadMemory(cfg, sys, m, q) == []
  {
    WalkOfNothing(cfg, q, Start(q.tree, sys.nodes, sys.mem), q.gfx, 0, 0);
  }

  lemma RootOfHeld(cfg: Config, g: Layout, sys: System, m: Memory, tree: nat, x: nat, b: Byte)
    requires Calm(cfg, g, sys) && Holds(cfg, sys, m, tree, x, b)
    ensures Root(cfg, tree) in sys.nodes
  {
    hide WellFormed, Sane, OwnsAll, LeafOf, LeafSize;
    RootsAlwaysPresent(cfg, sys.nodes);
    LeafTree(cfg, sys.nodes, tree, x);
  }
}
