/** A decoder that sees only streamed entries, and what it finds after a walk. */
module TableDecoder {
  import opened Wrappers
  import opened Arithmetic
  import opened PageTables
  import opened WalkModel
  import opened TreeFacts
  import opened WalkLookup
  import opened WalkStream
  import opened WalkStreamed
  import opened Streams
  import opened StreamCoherence
  import PhysicalMemory

  function Fetch(sink: Sink, local: bool, addr: nat): Option<Entry> {
    if Location(local, addr) in sink then Some(sink[Location(local, addr)]) else None
  }

  /** The last two levels: a 2MB page, or a PTE whose entry format says how it is indexed. */
  function DecodePde(cfg: Config, sink: Sink, local: bool, e: Entry, va: nat): Option<Target> {
    if e.Cleared? then None
    else if e.large then Some(Target(e.addr + va % PAGE_2MB, e.local))
    else
      var kind := if e.intermediate then Pte64KB else Pte4KB;
      match Fetch(sink, local, e.addr + Index(cfg, kind, va) * 8)
      case Some(Entry(addr, leafLocal, _, _, _, _)) => Some(Target(addr + va % PteSize(kind), leafLocal))
      case _ => None
  }

  /** Walk the streamed tables from the one at `addr`, whose entries are at `level`. */
  function Decode(cfg: Config, sink: Sink, local: bool, addr: nat, level: nat, va: nat): Option<Target>
    requires 1 <= level <= 4
    decreases level
  {
    match Fetch(sink, local, addr + va / Span(level) % 512 * 8)
    case None => None
    case Some(e) =>
      if level == 1 then DecodePde(cfg, sink, local, e, va)
      else if e.Cleared? then None
      else Decode(cfg, sink, local, e.addr, level - 1, va)
  }

  /** From the root of a tree, which is known to the GPU by its address. */
  function DecodeRoot(cfg: Config, sink: Sink, nodes: Forest, tree: nat, va: nat): Option<Target>
    requires ValidConfig(cfg) && Root(cfg, tree) in nodes
  {
    Decode(cfg, sink, RootLocal(cfg, nodes, tree), nodes[Root(cfg, tree)].phys, cfg.levels - 1, va)
  }

  /** The tables above an address and its leaf are all written out. */
  ghost predicate PathSettled(cfg: Config, nodes: Forest, tree: nat, x: nat)
    requires cfg.levels <= 5
  {
    && LeafOf(cfg, nodes, tree, x).Some?
    && !nodes[LeafOf(cfg, nodes, tree, x).value].pending
    && forall l :: 1 <= l < cfg.levels ==> TableSlot(tree, l, x) in nodes && !nodes[TableSlot(tree, l, x)].pending
  }

  lemma FetchSlot(cfg: Config, nodes: Forest, sink: Sink, s: Slot)
    requires Coherent(cfg, nodes, sink) && s in nodes && s.level < cfg.levels && !nodes[s].pending && Parent(s) in nodes
    ensures Fetch(sink, RootLocal(cfg, nodes, s.tree), nodes[Parent(s)].phys + s.num % 512 * 8) == Some(EntryOf(cfg, nodes[s]))
  {
    hide EntryOf, RootLocal;
    assert LocationOf(cfg, nodes, s) in sink;
  }

  lemma DecodePdeFinds(cfg: Config, nodes: Forest, sink: Sink, tree: nat, va: nat)
    requires ValidConfig(cfg) && WellFormed(cfg, nodes) && Coherent(cfg, nodes, sink) && PathSettled(cfg, nodes, tree, va)
    ensures DecodePde(cfg, sink, RootLocal(cfg, nodes, tree), EntryOf(cfg, nodes[TableSlot(tree, 1, va)]), va) == Translate(cfg, nodes, tree, va)
  {
    hide Coherent, RootLocal, WellFormed, Index, LeafSlot;
    var p := TableSlot(tree, 1, va);
    PdeKind(cfg, nodes, p);
    if !nodes[p].kind.Page2MB? {
      var s := LeafOf(cfg, nodes, tree, va).value;
      LeafSlotParent(cfg, tree, nodes[p].kind, va);
      LeafSlotLevel(cfg, tree, nodes[p].kind, va);
      LeafUnderTable(cfg, nodes, s);
      FetchSlot(cfg, nodes, sink, s);
    }
  }

  /** Decoding from any table on the path agrees with the simple lookup. */
  lemma {:induction false} DecodeFinds(cfg: Config, nodes: Forest, sink: Sink, tree: nat, va: nat, level: nat)
    requires ValidConfig(cfg) && WellFormed(cfg, nodes) && Coherent(cfg, nodes, sink) && PathSettled(cfg, nodes, tree, va)
    requires 1 <= level < cfg.levels && TableSlot(tree, level + 1, va) in nodes
    ensures Decode(cfg, sink, RootLocal(cfg, nodes, tree), nodes[TableSlot(tree, level + 1, va)].phys, level, va)
            == Translate(cfg, nodes, tree, va)
    decreases level
  {
    hide Coherent, RootLocal, WellFormed, DecodePde, Translate, LeafOf, Fetch, Span;
    var s := TableSlot(tree, level, va);
    ChildIsTableSlot(cfg, tree, level, va);
    FetchSlot(cfg, nodes, sink, s);
    if level == 1 {
      DecodePdeFinds(cfg, nodes, sink, tree, va);
    } else {
      TableAbove(cfg, nodes, s);
      DecodeFinds(cfg, nodes, sink, tree, va, level - 1);
    }
  }

  /** For an address whose path is written out, the streamed tables alone translate it as the tree does. */
  lemma DecodeRootFinds(cfg: Config, nodes: Forest, sink: Sink, tree: nat, va: nat)
    requires ValidConfig(cfg) && WellFormed(cfg, nodes) && Coherent(cfg, nodes, sink) && PathSettled(cfg, nodes, tree, va)
    requires Root(cfg, tree) in nodes && InRange(cfg, va)
    ensures DecodeRoot(cfg, sink, nodes, tree, va) == Translate(cfg, nodes, tree, va)
  {
    RootIsTableSlot(cfg, tree, va);
    DecodeFinds(cfg, nodes, sink, tree, va, cfg.levels - 1);
  }
}
