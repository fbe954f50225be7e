/** What freeing a range of virtual addresses does to the tree, the allocators and the entries to stream. */
module FreeModel {
  import opened Wrappers
  import opened Arithmetic
  import opened PhysicalMemory
  import opened PageTables
  import opened WalkModel

  /** The effects so far on one tree; lists 0, 1 and 2 are the source's three entry lists. */
  datatype Freeing = Freeing(tree: nat, nodes: Forest, mem: Physical, table: PerLevel<PageEntryInfo>)

  /** isEmpty: no entry of the table is set. */
  predicate Empty(nodes: Forest, s: Slot) {
    forall x :: x in nodes ==> Parent(x) != s
  }

  function Append(f: Freeing, s: Slot, e: Entry): Freeing
    requires s.level < 5
  {
    f.(table := f.table[s.level := f.table[s.level] + [PageEntryInfo(s, EntryAddress(f.nodes, s), e)]])
  }

  /** Clear an entry, queue the zero, and delete the node, which gives back the frame it took. */
  function Delete(f: Freeing, s: Slot): Freeing
    requires s in f.nodes && s.level < 5
  {
    var n := f.nodes[s];
    var f1 := Append(f, s, Cleared);
    f1.(nodes := f.nodes - {s}, mem := if n.reserved > 0 then FreeFrame(f.mem, n.bank, n.phys) else f.mem)
  }

  /** A surviving entry of a broken PS64 group loses its mark and is streamed again; it is not marked pending. */
  function Unmark(cfg: Config, f: Freeing, s: Slot): Freeing
    requires s.level < 5
  {
    if s !in f.nodes then f
    else
      var f1 := f.(nodes := f.nodes[s := f.nodes[s].(ps64 := false)]);
      Append(f1, s, EntryOf(cfg, f1.nodes[s]))
  }

  /** The entries numbered low..high-1 at the lowest level. */
  function UnmarkRange(cfg: Config, f: Freeing, low: nat, high: nat): Freeing
    decreases high - low
  {
    if low >= high then f else UnmarkRange(cfg, Unmark(cfg, f, Slot(f.tree, 0, low)), low + 1, high)
  }

  /** Mend the part of a PS64 group that lies before or after the freed range [start, end). */
  function Mend(cfg: Config, f: Freeing, s: Slot, va: nat, size: nat, start: nat, end: nat): Freeing {
    var f1 := if va == start && start % PAGE_64KB != 0 then UnmarkRange(cfg, f, GroupBase(s), s.num) else f;
    if size <= PAGE_4KB && end % PAGE_64KB != 0 then UnmarkRange(cfg, f1, s.num + 1, GroupBase(s) + 16) else f1
  }

  /** The leaf under a PTE, if there is one; the frame goes back only after the group is mended. */
  function FreeLeaf(cfg: Config, f: Freeing, s: Slot, va: nat, size: nat, start: nat, end: nat): Freeing
    requires s.level == 0
  {
    if s !in f.nodes then f
    else if f.nodes[s].ps64 then Mend(cfg, Delete(f, s), s, va, size, start, end)
    else Delete(f, s)
  }

  function DeleteIfEmpty(f: Freeing, s: Slot): Freeing
    requires s.level < 5
  {
    if s in f.nodes && Empty(f.nodes, s) then Delete(f, s) else f
  }

  /** The size of the page at an address, when its PDE entry is set. */
  function PageSizeOf(nodes: Forest, tree: nat, va: nat): (r: Option<nat>)
    ensures r.Some? ==> r.value > 0 && TableSlot(tree, 1, va) in nodes && r.value == PageSizeAt(nodes[TableSlot(tree, 1, va)].kind)
  {
    var p := TableSlot(tree, 1, va);
    if p in nodes then Some(PageSizeAt(nodes[p].kind)) else None
  }

  /** One page; the caller has checked that its PDE entry is set. */
  function FreePage(cfg: Config, f: Freeing, va: nat, size: nat, start: nat, end: nat): Freeing
    requires TableSlot(f.tree, 1, va) in f.nodes
  {
    var p := TableSlot(f.tree, 1, va);
    if f.nodes[p].kind.Page2MB? then DeleteIfEmpty(Delete(f, p), TableSlot(f.tree, 2, va))
    else
      DeleteIfEmpty(FreeLeaf(cfg, f, LeafSlot(cfg, f.tree, f.nodes[p].kind, va), va, size, start, end), p)
  }

  /** False when a hole above the leaves ends the call early: then nothing of what was queued is streamed. */
  function FreeFrom(cfg: Config, f: Freeing, va: nat, size: nat, start: nat, end: nat): (Freeing, bool)
    decreases size
  {
    if size == 0 then (f, true)
    else match PageSizeOf(f.nodes, f.tree, va)
      case None => (f, false)
      case Some(pageSize) =>
        var step := PageStep(pageSize, va, size);
        FreeFrom(cfg, FreePage(cfg, f, va, size, start, end), va + step, size - step, start, end)
  }

  function FreeMemory(cfg: Config, nodes: Forest, mem: Physical, tree: nat, va: nat, size: nat): (Freeing, bool) {
    FreeFrom(cfg, Freeing(tree, nodes, mem, [[], [], [], [], []]), va, size, va, va + size)
  }
}
