/** What one page-table walk does: the tree it leaves, the frames it takes, the entries it streams, the pages it reports. */
module WalkModel {
  import opened Wrappers
  import opened Arithmetic
  import opened PhysicalMemory
  import opened PageTables
  import opened MemoryBanks

  datatype PageInfo = PageInfo(phys: nat, size: nat, local: bool, bank: nat)

  /** An entry to stream. `slot` names the table entry; only the address and the value reach the stream. */
  datatype PageEntryInfo = PageEntryInfo(slot: Slot, address: nat, entry: Entry)

  datatype Mode = Reserve | Clone | Expect

  /** One list per page-table level. */
  type PerLevel<T> = s: seq<seq<T>> | |s| == 5 witness [[], [], [], [], []]

  /** The effects of a walk of one tree; `emitted` is the union of its five emittedPending sets. */
  datatype Walk = Walk(tree: nat, nodes: Forest, mem: Physical, entries: seq<PageInfo>, table: PerLevel<PageEntryInfo>,
                       pendingNodes: PerLevel<Slot>, emitted: set<Slot>, pages64KB: seq<nat>)

  /** The arguments; `mapping` says that a physical address was given, `pageSize` is after the hardware check. */
  datatype Request = Request(tree: nat, gfx: nat, size: nat, banks: nat, pageSize: nat, attributes: Attributes,
                             mode: Mode, infos: seq<PageInfo>, mapping: bool)

  function Start(tree: nat, nodes: Forest, mem: Physical): Walk {
    Walk(tree, nodes, mem, [], [[], [], [], [], []], [[], [], [], [], []], {}, [])
  }

  function BankAt(q: Request, va: nat): nat
    requires q.pageSize > 0
  {
    if q.mapping then q.banks
    else
      var first := RoundDown(q.gfx, q.pageSize);
      var end := RoundUp(q.gfx + q.size, q.pageSize);
      BankOf(q.banks, first, if end < first then 0 else end - first, va)
  }

  // ---- elementary effects ----

  function PutNode(w: Walk, s: Slot, n: Node): Walk {
    w.(nodes := w.nodes[s := n])
  }

  function Emit(cfg: Config, w: Walk, s: Slot): Walk
    requires s in w.nodes && s.level < 5
  {
    w.(table := w.table[s.level := w.table[s.level] + [PageEntryInfo(s, EntryAddress(w.nodes, s), EntryOf(cfg, w.nodes[s]))]])
  }

  /** Remember a pending node whose entry is going out, so that a committed stream can clear it. */
  function Track(w: Walk, s: Slot): Walk
    requires s.level < 5
  {
    w.(emitted := w.emitted + {s}, pendingNodes := w.pendingNodes[s.level := w.pendingNodes[s.level] + [s]])
  }

  /** Stream the entry when asked to, or when it is pending and not yet out in this walk. */
  function PlainVisit(cfg: Config, w: Walk, s: Slot, force: bool): (r: Walk)
    requires s in w.nodes && s.level < 5
    ensures r.nodes == w.nodes && r.mem == w.mem && r.entries == w.entries && r.tree == w.tree
  {
    var isNewPending := w.nodes[s].pending && s !in w.emitted;
    var w1 := if isNewPending then Track(w, s) else w;
    if force || isNewPending then Emit(cfg, w1, s) else w1
  }

  /** A new table takes a 4KB frame from its parent's bank. */
  function AddTable(w: Walk, s: Slot, kind: Kind): (r: Walk)
    ensures r.tree == w.tree
  {
    var bank := if Parent(s) in w.nodes then w.nodes[Parent(s)].bank else 0;
    var (mem, phys) := PhysicalMemory.Reserve(w.mem, bank, PAGE_4KB, PAGE_4KB);
    PutNode(w.(mem := mem), s, Node(kind, phys, bank, NO_ATTRIBUTES, PAGE_4KB, false, true))
  }

  /** A new leaf: at the cloned page, at the given address, or in a frame of its own. */
  function AddLeaf(q: Request, w: Walk, s: Slot, kind: Kind, size: nat, bank: nat, target: nat, info: PageInfo): Walk
    requires size > 0
  {
    if q.mode.Clone? then
      PutNode(w, s, Node(kind, RoundDown(info.phys, size), info.bank, q.attributes, 0, false, true))
    else if q.mapping then
      PutNode(w, s, Node(kind, target, bank, q.attributes, 0, false, true))
    else
      var (mem, phys) := PhysicalMemory.Reserve(w.mem, bank, size, size);
      PutNode(w.(mem := mem), s, Node(kind, phys, bank, q.attributes, size, false, true))
  }

  /** Point an existing leaf at the given address and bank. */
  function Retarget(w: Walk, s: Slot, target: nat, bank: nat): Walk
    requires s in w.nodes
  {
    var n := w.nodes[s];
    PutNode(w, s, n.(phys := target, bank := bank, pending := n.pending || n.phys != target || n.bank != bank))
  }

  // ---- the PS64 protocol on one aligned group of sixteen 4KB entries ----

  function GroupBase(s: Slot): nat {
    s.num / 16 * 16
  }

  function Member(s: Slot, i: nat): Slot {
    Slot(s.tree, 0, GroupBase(s) + i)
  }

  /** isPs64GroupComplete: sixteen leaves, consecutive frames from a 64KB boundary, equal flags. */
  predicate GroupComplete(cfg: Config, nodes: Forest, s: Slot) {
    && Member(s, 0) in nodes
    && nodes[Member(s, 0)].phys % PAGE_64KB == 0
    && forall i {:trigger Member(s, i)} :: 0 <= i < 16 ==>
         && Member(s, i) in nodes
         && nodes[Member(s, i)].phys == nodes[Member(s, 0)].phys + i * PAGE_4KB
         && FlagsOf(cfg, nodes[Member(s, i)]) == FlagsOf(cfg, nodes[Member(s, 0)])
  }

  predicate WasGroup(cfg: Config, nodes: Forest, s: Slot) {
    Member(s, 0) in nodes && nodes[Member(s, 0)].ps64 && GroupComplete(cfg, nodes, s)
  }

  /** The group is complete: mark a member and stream it unless a PS64 entry for it is already out. */
  function Upgrade(cfg: Config, w: Walk, s: Slot): (r: Walk)
    requires s in w.nodes && s.level < 5
    ensures r.nodes.Keys == w.nodes.Keys && r.tree == w.tree
  {
    var isNew := !w.nodes[s].ps64;
    var w1 := if isNew then PutNode(w, s, w.nodes[s].(ps64 := true, pending := true)) else w;
    var isNewPending := w1.nodes[s].pending && s !in w1.emitted;
    var w2 := if isNew || isNewPending then Emit(cfg, w1, s) else w1;
    if isNewPending then Track(w2, s) else w2
  }

  /** The group is broken: clear a member's mark and stream it. */
  function Downgrade(cfg: Config, w: Walk, s: Slot): (r: Walk)
    requires s in w.nodes && s.level < 5
    ensures r.nodes.Keys == w.nodes.Keys && r.tree == w.tree
  {
    var w1 := Emit(cfg, PutNode(w, s, w.nodes[s].(ps64 := false, pending := true)), s);
    if s in w1.emitted then w1 else Track(w1, s)
  }

  /** Members i..15, in order; a missing member is passed over (the source asserts there is none). */
  function UpgradeFrom(cfg: Config, w: Walk, s: Slot, i: nat): (r: Walk)
    requires i <= 16
    ensures r.nodes.Keys == w.nodes.Keys && r.tree == w.tree
    decreases 16 - i
  {
    if i == 16 then w
    else UpgradeFrom(cfg, if Member(s, i) in w.nodes then Upgrade(cfg, w, Member(s, i)) else w, s, i + 1)
  }

  function DowngradeFrom(cfg: Config, w: Walk, s: Slot, i: nat): (r: Walk)
    requires i <= 16
    ensures r.nodes.Keys == w.nodes.Keys && r.tree == w.tree
    decreases 16 - i
  {
    if i == 16 then w
    else DowngradeFrom(cfg, if Member(s, i) in w.nodes then Downgrade(cfg, w, Member(s, i)) else w, s, i + 1)
  }

  /** Will this walk complete the group? Looks at the remaining size and at member 0 only. */
  predicate WillComplete(cfg: Config, nodes: Forest, s: Slot, size: nat)
    requires s in nodes
  {
    var k := s.num % 16;
    && nodes[s].phys >= k * PAGE_4KB
    && (nodes[s].phys - k * PAGE_4KB) % PAGE_64KB == 0
    && size >= (16 - k) * PAGE_4KB
    && (k == 0 ||
        (Member(s, 0) in nodes
        && nodes[Member(s, 0)].phys == nodes[s].phys - k * PAGE_4KB
        && FlagsOf(cfg, nodes[Member(s, 0)]) == FlagsOf(cfg, nodes[s])))
  }

  function Speculate(cfg: Config, w: Walk, s: Slot, size: nat): (r: Walk)
    requires s in w.nodes && s.level < 5
    ensures r.nodes.Keys == w.nodes.Keys && r.tree == w.tree
  {
    var w1 := if WillComplete(cfg, w.nodes, s, size)
              then PutNode(w, s, w.nodes[s].(ps64 := true, pending := true)) else w;
    var w2 := Emit(cfg, w1, s);
    if w2.nodes[s].pending && s !in w2.emitted then Track(w2, s) else w2
  }

  function Ps64Visit(cfg: Config, w: Walk, s: Slot, wasGroup: bool, size: nat): (r: Walk)
    requires s in w.nodes && s.level < 5
    ensures r.nodes.Keys == w.nodes.Keys && r.tree == w.tree
  {
    if GroupComplete(cfg, w.nodes, s) then UpgradeFrom(cfg, w, s, 0)
    else if wasGroup then DowngradeFrom(cfg, w, s, 0)
    else Speculate(cfg, w, s, size)
  }

  predicate Ps64Applicable(cfg: Config, q: Request) {
    cfg.ps64Enabled && q.pageSize == PAGE_4KB && cfg.levels == 5
  }

  // ---- one page ----

  /** The tables from `level` down to the PDE; false when an Expect walk meets a hole. */
  function TablesDown(cfg: Config, q: Request, w: Walk, va: nat, level: nat): (r: (Walk, bool))
    requires level <= 4
    ensures r.0.tree == w.tree
    decreases level
  {
    if level < 2 then (w, true)
    else
      var s := TableSlot(q.tree, level, va);
      if s !in w.nodes && q.mode.Expect? then (w, false)
      else
        var w1 := if s in w.nodes then w else AddTable(w, s, TableKind(level));
        TablesDown(cfg, q, PlainVisit(cfg, w1, s, s !in w.nodes || q.mapping), va, level - 1)
  }

  /** The leaf a page visit ended at (none at a hole), its page size, and the possibly realigned physical cursor. */
  datatype Visit = Visit(w: Walk, leaf: Option<Slot>, pageSize: nat, target: nat)

  /** The physical cursor moved up to a 2MB boundary. */
  function Realign(target: nat): nat {
    if target % PAGE_2MB == 0 then target else RoundDown(target, PAGE_2MB) + PAGE_2MB
  }

  /** The leaf of this page: created when absent, and pointed at the given address in a mapping walk. */
  function PlaceLeaf(q: Request, w: Walk, s: Slot, kind: Kind, pageSize: nat, bank: nat, target: nat, info: PageInfo): (r: Walk)
    requires pageSize > 0
    ensures r.nodes.Keys == w.nodes.Keys + {s} && r.tree == w.tree
  {
    var w1 := if s in w.nodes then w else AddLeaf(q, w, s, kind, pageSize, bank, target, info);
    // 64KB system pages must be announced to the stream before their entries
    var w2 := if s !in w.nodes && kind.Page? && q.mode.Reserve? && q.banks == 0 && pageSize == PAGE_64KB
              then w1.(pages64KB := w1.pages64KB + [w1.nodes[s].phys]) else w1;
    if q.mapping then Retarget(w2, s, target, bank) else w2
  }

  /** Streaming the leaf of a 4KB or 64KB page; `before` is the tree as the page visit found it. */
  function VisitLeaf(cfg: Config, q: Request, before: Forest, w: Walk, s: Slot, pageSize: nat, size: nat): (r: Walk)
    requires s in w.nodes && s.level < 5
    ensures r.nodes.Keys == w.nodes.Keys && r.tree == w.tree
  {
    if Ps64Applicable(cfg, q) && pageSize == PAGE_4KB then Ps64Visit(cfg, w, s, WasGroup(cfg, before, s), size)
    else PlainVisit(cfg, w, s, s !in before || q.mapping)
  }

  function PteStep(cfg: Config, q: Request, w: Walk, va: nat, size: nat, bank: nat, target: nat, info: PageInfo): (v: Visit)
    requires TableSlot(q.tree, 1, va) in w.nodes
    ensures v.pageSize > 0 && (v.leaf.Some? ==> v.leaf.value in v.w.nodes) && v.w.tree == w.tree
  {
    var kind := w.nodes[TableSlot(q.tree, 1, va)].kind;
    var pageSize := PteSize(kind);
    var s := LeafSlot(cfg, q.tree, kind, va);
    if s !in w.nodes && q.mode.Expect? then Visit(w, None, pageSize, target)
    else
      var w1 := PlaceLeaf(q, w, s, Page, pageSize, bank, target, info);
      Visit(VisitLeaf(cfg, q, w.nodes, w1, s, pageSize, size), Some(s), pageSize, target)
  }

  function LargePageStep(cfg: Config, q: Request, w: Walk, s: Slot, bank: nat, target: nat, info: PageInfo): (v: Visit)
    requires s.level < 5
    ensures v.pageSize > 0 && (v.leaf.Some? ==> v.leaf.value in v.w.nodes) && v.w.tree == w.tree
  {
    var target' := if q.mapping then Realign(target) else target;
    Visit(PlainVisit(cfg, PlaceLeaf(q, w, s, Page2MB, PAGE_2MB, bank, target', info), s, true), Some(s), PAGE_2MB, target')
  }

  function PdeStep(cfg: Config, q: Request, w: Walk, va: nat, size: nat, bank: nat, target: nat, info: PageInfo): (v: Visit)
    ensures (q.pageSize > 0 ==> v.pageSize > 0) && (v.leaf.Some? ==> v.leaf.value in v.w.nodes) && v.w.tree == w.tree
  {
    var s := TableSlot(q.tree, 1, va);
    if s in w.nodes then
      if w.nodes[s].kind.Page2MB? then
        if q.mapping then LargePageStep(cfg, q, w, s, bank, target, info) else Visit(w, Some(s), PAGE_2MB, target)
      else
        PteStep(cfg, q, PlainVisit(cfg, w, s, q.mapping), va, size, bank, target, info)
    else if q.mode.Expect? then Visit(w, None, q.pageSize, target)
    else if q.pageSize == PAGE_2MB then LargePageStep(cfg, q, w, s, bank, target, info)
    else
      PteStep(cfg, q, PlainVisit(cfg, AddTable(w, s, PteKind(q.pageSize)), s, true), va, size, bank, target, info)
  }

  function PageVisit(cfg: Config, q: Request, w: Walk, va: nat, size: nat, target: nat, info: PageInfo): (v: Visit)
    requires q.pageSize > 0 && cfg.levels <= 5
    ensures (q.pageSize > 0 ==> v.pageSize > 0) && (v.leaf.Some? ==> v.leaf.value in v.w.nodes) && v.w.tree == w.tree
  {
    var (w1, found) := TablesDown(cfg, q, w, va, if cfg.levels == 0 then 0 else cfg.levels - 1);
    if found then PdeStep(cfg, q, w1, va, size, BankAt(q, va), target, info)
    else Visit(w1, None, q.pageSize, target)
  }

  // ---- the whole walk ----

  datatype Ending = Completed | Hole | Overrun

  /** How many of the remaining bytes lie in the page just visited. */
  function PageStep(pageSize: nat, va: nat, size: nat): (r: nat)
    requires pageSize > 0
    ensures size > 0 ==> 0 < r <= size
  {
    Min(size, pageSize - va % pageSize)
  }

  function InfoAt(q: Request, i: nat): PageInfo {
    if q.mode.Clone? && i < |q.infos| then q.infos[i] else PageInfo(0, 0, false, 0)
  }

  function Report(v: Visit, va: nat, size: nat, bank: nat): Walk
    requires v.pageSize > 0 && v.leaf.Some? && v.leaf.value in v.w.nodes
  {
    var leaf := v.w.nodes[v.leaf.value];
    v.w.(entries := v.w.entries +
                    [PageInfo(leaf.phys + va % v.pageSize, PageStep(v.pageSize, va, size), leaf.bank != 0, bank)])
  }

  function NextTarget(v: Visit, va: nat, size: nat): nat
    requires v.pageSize > 0
  {
    if v.pageSize == PAGE_2MB then RoundDown(v.target, PAGE_2MB) + PAGE_2MB
    else v.target + PageStep(v.pageSize, va, size)
  }

  /** walkMemory from `va` on; `i` counts the pages done, and running out of cloned pages ends the walk. */
  function WalkFrom(cfg: Config, q: Request, w: Walk, va: nat, size: nat, target: nat, i: nat): (Walk, Ending)
    requires q.pageSize > 0 && cfg.levels <= 5
    decreases size
  {
    if size == 0 then (w, Completed)
    else if q.mode.Clone? && i >= |q.infos| then (w, Overrun)
    else
      var v := PageVisit(cfg, q, w, va, size, target, InfoAt(q, i));
      if v.leaf.None? then (v.w, Hole)
      else
        var step := PageStep(v.pageSize, va, size);
        WalkFrom(cfg, q, Report(v, va, size, BankAt(q, va)), va + step, size - step, NextTarget(v, va, size), i + 1)
  }

  function WalkMemory(cfg: Config, q: Request, nodes: Forest, mem: Physical, target: nat): (Walk, Ending)
    requires q.pageSize > 0 && cfg.levels <= 5
  {
    WalkFrom(cfg, q, Start(q.tree, nodes, mem), q.gfx, q.size, target, 0)
  }
}
