/** Shared-memory streams: every write and read of physical memory goes through the translation into host memory. */
module HostMemory {
  import opened Wrappers
  import opened Arithmetic
  import opened FrameAllocator
  import opened PhysicalMemory
  import PageTables
  import WalkModel
  import opened WalkLookup
  import opened FrameOwnership
  import Streams
  import StreamCoherence
  import TreeFacts
  import opened System
  import opened EndToEnd
  import opened Shm4

  datatype HostTables = HostTables(system: HostTable, local: HostTable)

  function Table(ts: HostTables, local: bool): HostTable {
    if local then ts.local else ts.system
  }

  /** Host memory, byte by byte. */
  type Host = map<nat, Byte>

  function HostGet(h: Host, a: nat): Byte {
    if a in h then h[a] else 0
  }

  function Copy(h: Host, p: nat, data: seq<Byte>): Host
    decreases |data|
  {
    if data == [] then h else Copy(h[p := data[0]], p + 1, data[1..])
  }

  lemma {:induction false} CopyGet(h: Host, p: nat, data: seq<Byte>, a: nat)
    ensures var r := Copy(h, p, data);
      if p <= a < p + |data| then a in r && r[a] == data[a - p] else (a in r <==> a in h) && (a in h ==> r[a] == h[a])
    decreases |data|
  {
    if data != [] { CopyGet(h[p := data[0]], p + 1, data[1..], a); }
  }

  /** The host byte behind a place. */
  function Behind(ts: HostTables, p: Place): Option<nat> {
    HostOf(Table(ts, p.local), p.addr)
  }

  /** Two places never share a host byte. */
  ghost predicate Separate(ts: HostTables) {
    forall a, b :: a != b && Behind(ts, a).Some? ==> Behind(ts, a) != Behind(ts, b)
  }

  /** Whatever has been written to physical memory is in the host bytes behind it. */
  ghost predicate Mirrors(h: Host, ts: HostTables, m: Memory) {
    forall p :: p in m ==> Behind(ts, p).Some? && Behind(ts, p).value in h && h[Behind(ts, p).value] == m[p]
  }

  ghost predicate RunBacked(ts: HostTables, run: Run) {
    exists base: nat :: Backs(Table(ts, run.local), run.phys, run.size, base)
  }

  /** Every byte of the stretch has been written. */
  ghost predicate Written(m: Memory, run: Run) {
    forall p: Place :: p.local == run.local && run.phys <= p.addr < run.phys + run.size ==> p in m
  }

  lemma BehindBacked(ts: HostTables, at: Place, n: nat, base: nat, p: Place)
    requires Backs(Table(ts, at.local), at.addr, n, base) && p.local == at.local && at.addr <= p.addr < at.addr + n
    ensures Behind(ts, p) == Some(base + (p.addr - at.addr))
  {
  }

  /** Copying to the host memory behind a contiguous stretch is storing to the stretch. */
  lemma CopyMirrors(h: Host, ts: HostTables, m: Memory, at: Place, data: seq<Byte>, base: nat)
    requires Separate(ts) && Mirrors(h, ts, m) && Backs(Table(ts, at.local), at.addr, |data|, base)
    ensures Mirrors(Copy(h, base, data), ts, StoreBytes(m, at, data))
  {
    hide HostOf, Backs;
    var h', m' := Copy(h, base, data), StoreBytes(m, at, data);
    forall p | p in m' ensures Behind(ts, p).Some? && Behind(ts, p).value in h' && h'[Behind(ts, p).value] == m'[p] {
      StoreBytesGet(m, at, data, p);
      if p.local == at.local && at.addr <= p.addr < at.addr + |data| {
        BehindBacked(ts, at, |data|, base, p);
        CopyGet(h, base, data, base + (p.addr - at.addr));
      } else {
        CopyGet(h, base, data, Behind(ts, p).value);
        if base <= Behind(ts, p).value < base + |data| {
          var q := Place(at.local, at.addr + (Behind(ts, p).value - base));
          BehindBacked(ts, at, |data|, base, q);
          assert false;
        }
      }
    }
  }

  // ---- reads and writes of the stream ----

  /** Translate and copy: the data goes to host memory if one stretch backs all of it, and is dropped otherwise. */
  ghost function StoreHost(ts: HostTables, h: Host, at: Place, data: seq<Byte>): Host {
    if Contiguous(Table(ts, at.local), at.addr, |data|) then Copy(h, HostOf(Table(ts, at.local), at.addr).value, data) else h
  }

  /** Data over the pages of a walk, one translation a page. */
  ghost function StoreRuns(ts: HostTables, h: Host, runs: seq<Run>, data: seq<Byte>): Host
    requires TotalSize(runs) <= |data|
    decreases |runs|
  {
    if runs == [] then h
    else StoreRuns(ts, StoreHost(ts, h, Place(runs[0].local, runs[0].phys), data[..runs[0].size]), runs[1..], data[runs[0].size..])
  }

  /** Page-table entries, one translation an entry. */
  ghost function StoreEntries(ts: HostTables, h: Host, local: bool, list: seq<WalkModel.PageEntryInfo>, bits: PageTables.Entry -> seq<Byte>): Host
    decreases |list|
  {
    if list == [] then h
    else StoreEntries(ts, StoreHost(ts, h, Place(local, list[0].address), bits(list[0].entry)), local, list[1..], bits)
  }

  ghost function StoreLevels(ts: HostTables, h: Host, local: bool, table: WalkModel.PerLevel<WalkModel.PageEntryInfo>, level: nat,
                             bits: PageTables.Entry -> seq<Byte>): Host
    requires level <= 5
    decreases level
  {
    if level == 0 then h else StoreLevels(ts, StoreEntries(ts, h, local, table[level - 1], bits), local, table, level - 1, bits)
  }

  /** What a page's part of the caller's buffer holds after a read: the host bytes, or what it held if the copy was refused. */
  ghost function ReadHost(ts: HostTables, h: Host, run: Run, buffer: seq<Byte>): (r: seq<Byte>)
    requires |buffer| == run.size
    ensures |r| == run.size
  {
    if Contiguous(Table(ts, run.local), run.phys, run.size) then HostBytes(h, HostOf(Table(ts, run.local), run.phys).value, run.size)
    else buffer
  }

  function HostBytes(h: Host, p: nat, size: nat): (r: seq<Byte>)
    ensures |r| == size
  {
    seq<Byte>(size, k requires 0 <= k < size => HostGet(h, p + k))
  }

  ghost function ReadHostRuns(ts: HostTables, h: Host, runs: seq<Run>, buffer: seq<Byte>): seq<Byte>
    requires TotalSize(runs) <= |buffer|
    decreases |runs|
  {
    if runs == [] then buffer
    else ReadHost(ts, h, runs[0], buffer[..runs[0].size]) + ReadHostRuns(ts, h, runs[1..], buffer[runs[0].size..])
  }

  /** The stream's view: host memory and the tables it is reached through. */
  class TbxShmStream {
    const mapper: Shm4Mapper
    var host: Host

    constructor (mapper: Shm4Mapper)
      ensures this.mapper == mapper && host == map[]
    {
      this.mapper := mapper;
      host := map[];
    }

    ghost function Ts(): HostTables
      reads mapper
    {
      HostTables(mapper.systemTable, mapper.localTable)
    }

    /** memcpy_s: nothing is copied unless the destination is there and large enough. */
    method CopyChecked(p: nat, destSize: nat, data: seq<Byte>)
      modifies this
      ensures host == if destSize > 0 && destSize >= |data| then Copy(old(host), p, data) else old(host)
    {
      if destSize == 0 || destSize < |data| { return; }
      var i: nat := 0;
      assert data[0..] == data;
      while i < |data|
        invariant i <= |data| && Copy(host, p + i, data[i..]) == Copy(old(host), p, data)
      {
        host := host[p + i := data[i]];
        assert data[i..][1..] == data[i + 1..];
        i := i + 1;
      }
    }

    /** One page or entry: translate, then copy. */
    method WriteOne(at: Place, data: seq<Byte>)
      modifies this
      ensures host == StoreHost(Ts(), old(host), at, data)
    {
      hide HostOf, Translates, Backs;
      var p, destSize := mapper.Translate(at.addr, |data|, at.local);
      CopyChecked(p, destSize, data);
      if data != [] {
        TranslationDecides(Table(Ts(), at.local), at.addr, |data|, p, destSize);
      } else {
        assert Copy(old(host), p, data) == old(host);
      }
    }

    /** Data over the pages of a walk. */
    method WriteDiscontiguousPages(memory: seq<Byte>, table: seq<Run>)
      requires TotalSize(table) <= |memory|
      modifies this
      ensures host == StoreRuns(Ts(), old(host), table, memory)
    {
      hide StoreHost;
      var rest := memory;
      for i := 0 to |table|
        invariant TotalSize(table[i..]) <= |rest| && StoreRuns(Ts(), host, table[i..], rest) == StoreRuns(Ts(), old(host), table, memory)
      {
        var entry := table[i];
        assert table[i..][1..] == table[i + 1..] && table[i..][0] == entry;
        WriteOne(Place(entry.local, entry.phys), rest[..entry.size]);
        rest := rest[entry.size..];
      }
    }

    /** Page-table entries. */
    method WriteTableEntries(local: bool, table: seq<WalkModel.PageEntryInfo>, bits: PageTables.Entry -> seq<Byte>)
      modifies this
      ensures host == StoreEntries(Ts(), old(host), local, table, bits)
    {
      hide StoreHost;
      assert table[0..] == table;
      for i := 0 to |table|
        invariant StoreEntries(Ts(), host, local, table[i..], bits) == StoreEntries(Ts(), old(host), local, table, bits)
      {
        var entry := table[i];
        assert table[i..][1..] == table[i + 1..] && table[i..][0] == entry;
        WriteOne(Place(local, entry.address), bits(entry.entry));
      }
    }

    /** Reads into the caller's buffer, page by page. */
    method ReadDiscontiguousPages(table: seq<Run>, buffer: seq<Byte>) returns (memory: seq<Byte>)
      requires TotalSize(table) <= |buffer|
      ensures memory == ReadHostRuns(Ts(), host, table, buffer)
    {
      hide ReadHost;
      memory := [];
      var rest := buffer;
      for i := 0 to |table|
        invariant TotalSize(table[i..]) <= |rest|
        invariant memory + ReadHostRuns(Ts(), host, table[i..], rest) == ReadHostRuns(Ts(), host, table, buffer)
      {
        var entry := table[i];
        assert table[i..][1..] == table[i + 1..] && table[i..][0] == entry;
        var bytes := ReadOne(entry, rest[..entry.size]);
        rest := rest[entry.size..];
        assert memory + (bytes + ReadHostRuns(Ts(), host, table[i + 1..], rest)) == memory + bytes + ReadHostRuns(Ts(), host, table[i + 1..], rest);
        memory := memory + bytes;
      }
      memory := memory + rest;
    }

    method ReadOne(entry: Run, buffer: seq<Byte>) returns (bytes: seq<Byte>)
      requires |buffer| == entry.size
      ensures bytes == ReadHost(Ts(), host, entry, buffer)
    {
      hide HostOf, Translates, Backs, HostBytes;
      var p, availableSize := mapper.Translate(entry.phys, entry.size, entry.local);
      if entry.size == 0 { return buffer; }
      TranslationDecides(Table(Ts(), entry.local), entry.phys, entry.size, p, availableSize);
      bytes := if availableSize < entry.size then buffer else HostBytes(host, p, entry.size);
    }
  }

  // ---- host memory mirrors physical memory ----

  lemma BackedIsContiguous(ts: HostTables, run: Run)
    requires RunBacked(ts, run) && run.size > 0
    ensures Contiguous(Table(ts, run.local), run.phys, run.size)
  {
    hide HostOf;
    var base: nat :| Backs(Table(ts, run.local), run.phys, run.size, base);
    assert HostOf(Table(ts, run.local), run.phys) == Some(base + (run.phys - run.phys));
  }

  lemma StoreMirrors(h: Host, ts: HostTables, m: Memory, at: Place, data: seq<Byte>)
    requires Separate(ts) && Mirrors(h, ts, m) && RunBacked(ts, Run(at.addr, |data|, at.local))
    ensures Mirrors(StoreHost(ts, h, at, data), ts, StoreBytes(m, at, data))
  {
    hide HostOf, Backs, Separate, Mirrors, RunBacked;
    if data != [] {
      BackedIsContiguous(ts, Run(at.addr, |data|, at.local));
      CopyMirrors(h, ts, m, at, data, HostOf(Table(ts, at.local), at.addr).value);
    }
  }

  lemma {:induction false} StoreRunsMirrors(h: Host, ts: HostTables, m: Memory, runs: seq<Run>, data: seq<Byte>)
    requires Separate(ts) && Mirrors(h, ts, m) && TotalSize(runs) <= |data| && forall run :: run in runs ==> RunBacked(ts, run)
    ensures Mirrors(StoreRuns(ts, h, runs, data), ts, PutRuns(m, runs, data))
    decreases |runs|
  {
    hide Separate, Mirrors, RunBacked, StoreHost, StoreBytes;
    if runs != [] {
      var at, part := Place(runs[0].local, runs[0].phys), data[..runs[0].size];
      assert runs[0] in runs && Run(at.addr, |part|, at.local) == runs[0];
      StoreMirrors(h, ts, m, at, part);
      StoreRunsMirrors(StoreHost(ts, h, at, part), ts, StoreBytes(m, at, part), runs[1..], data[runs[0].size..]);
    }
  }

  lemma {:induction false} StoreEntriesMirrors(h: Host, ts: HostTables, m: Memory, local: bool, list: seq<WalkModel.PageEntryInfo>,
                                              bits: PageTables.Entry -> seq<Byte>)
    requires Separate(ts) && Mirrors(h, ts, m) && EightBytes(bits) && forall e :: e in list ==> RunBacked(ts, Run(e.address, 8, local))
    ensures Mirrors(StoreEntries(ts, h, local, list, bits), ts, PutEntries(m, local, list, bits))
    decreases |list|
  {
    hide Separate, Mirrors, RunBacked, StoreHost, StoreBytes;
    if list != [] {
      var at, part := Place(local, list[0].address), bits(list[0].entry);
      assert list[0] in list && |part| == 8;
      StoreMirrors(h, ts, m, at, part);
      StoreEntriesMirrors(StoreHost(ts, h, at, part), ts, StoreBytes(m, at, part), local, list[1..], bits);
    }
  }

  lemma {:induction false} StoreLevelsMirrors(h: Host, ts: HostTables, m: Memory, local: bool, table: WalkModel.PerLevel<WalkModel.PageEntryInfo>, level: nat,
                                             bits: PageTables.Entry -> seq<Byte>)
    requires Separate(ts) && Mirrors(h, ts, m) && EightBytes(bits) && level <= 5
    requires forall l, e :: 0 <= l < 5 && e in table[l] ==> RunBacked(ts, Run(e.address, 8, local))
    ensures Mirrors(StoreLevels(ts, h, local, table, level, bits), ts, PutLevels(m, local, table, level, bits))
    decreases level
  {
    hide Separate, Mirrors, RunBacked, StoreEntries, PutEntries, EightBytes;
    if level > 0 {
      StoreEntriesMirrors(h, ts, m, local, table[level - 1], bits);
      StoreLevelsMirrors(StoreEntries(ts, h, local, table[level - 1], bits), ts, PutEntries(m, local, table[level - 1], bits), local, table, level - 1, bits);
    }
  }

  lemma ReadMirrors(h: Host, ts: HostTables, m: Memory, run: Run, buffer: seq<Byte>)
    requires Mirrors(h, ts, m) && RunBacked(ts, run) && Written(m, run) && |buffer| == run.size
    ensures ReadHost(ts, h, run, buffer) == ReadRun(m, run)
  {
    hide HostOf, Backs, Mirrors, Written, RunBacked;
    if run.size > 0 {
      BackedIsContiguous(ts, run);
      var base := HostOf(Table(ts, run.local), run.phys).value;
      forall k: nat | k < run.size ensures HostGet(h, base + k) == ReadRun(m, run)[k] { ReadByte(h, ts, m, run, base, k); }
    } else {
      assert ReadRun(m, run) == [] && buffer == [];
    }
  }

  lemma ReadByte(h: Host, ts: HostTables, m: Memory, entry: Run, base: nat, k: nat)
    requires Mirrors(h, ts, m) && Backs(Table(ts, entry.local), entry.phys, entry.size, base) && Written(m, entry) && k < entry.size
    ensures HostGet(h, base + k) == ReadRun(m, entry)[k]
  {
    hide HostOf, Backs;
    var q := Place(entry.local, entry.phys + k);
    BehindBacked(ts, Place(entry.local, entry.phys), entry.size, base, q);
    assert q in m;
    ReadRunAt(m, entry, k);
  }

  lemma ReadRunAt(m: Memory, entry: Run, k: nat)
    requires k < entry.size
    ensures ReadRun(m, entry)[k] == Get(m, Place(entry.local, entry.phys + k))
  {
  }

  /** Reading written bytes through the translation returns them, whatever was in the buffer. */
  lemma {:induction false} ReadRunsMirror(h: Host, ts: HostTables, m: Memory, runs: seq<Run>, buffer: seq<Byte>)
    requires Mirrors(h, ts, m) && |buffer| == TotalSize(runs)
    requires forall run :: run in runs ==> RunBacked(ts, run) && Written(m, run)
    ensures ReadHostRuns(ts, h, runs, buffer) == ReadRuns(m, runs)
    decreases |runs|
  {
    hide Mirrors, RunBacked, Written, ReadHost, ReadRun;
    if runs != [] {
      assert runs[0] in runs;
      ReadMirrors(h, ts, m, runs[0], buffer[..runs[0].size]);
      ReadRunsMirror(h, ts, m, runs[1..], buffer[runs[0].size..]);
    }
  }

  // ---- who is backed ----

  /** Every block in use is backed contiguously. */
  ghost predicate BlocksBacked(ts: HostTables, mem: Physical) {
    forall i, b :: InUse(mem, i, b) ==> RunBacked(ts, Run(b.addr, b.size, i != 0))
  }

  /** The stretch lies in one block in use. */
  ghost predicate RunInUse(mem: Physical, run: Run) {
    exists i, b :: InUse(mem, i, b) && (i != 0) == run.local && b.addr <= run.phys && run.phys + run.size <= b.addr + b.size
  }

  lemma PartBacked(ts: HostTables, whole: Run, part: Run)
    requires RunBacked(ts, whole) && part.local == whole.local && whole.phys <= part.phys && part.phys + part.size <= whole.phys + whole.size
    ensures RunBacked(ts, part)
  {
    var base: nat :| Backs(Table(ts, whole.local), whole.phys, whole.size, base);
    var shifted: nat := base + (part.phys - whole.phys);
    assert Backs(Table(ts, part.local), part.phys, part.size, shifted);
  }

  lemma InUseBacked(ts: HostTables, mem: Physical, run: Run)
    requires BlocksBacked(ts, mem) && RunInUse(mem, run)
    ensures RunBacked(ts, run)
  {
    hide RunBacked, InUse;
    var i, b :| InUse(mem, i, b) && (i != 0) == run.local && b.addr <= run.phys && run.phys + run.size <= b.addr + b.size;
    PartBacked(ts, Run(b.addr, b.size, i != 0), run);
  }

  /** The bank has an allocator of its own kind: a local one, unless it is the main bank. */
  predicate Routed(mem: Physical, bank: nat) {
    bank == 0 || |mem| > 1
  }

  ghost predicate NodesRouted(nodes: PageTables.Forest, mem: Physical) {
    forall s :: s in nodes ==> Routed(mem, nodes[s].bank)
  }

  lemma FrameInUse(nodes: PageTables.Forest, mem: Physical, g: Layout, s: PageTables.Slot, run: Run)
    requires Sane(nodes, mem, g, Everyone) && NodesRouted(nodes, mem) && s in nodes && nodes[s].reserved > 0
    requires run.local == (nodes[s].bank != 0) && nodes[s].phys <= run.phys && run.phys + run.size <= nodes[s].phys + nodes[s].reserved
    ensures RunInUse(mem, run)
  {
    hide ValidPhysical, AlignedPool, InUse;
    assert HoldsFrame(nodes, mem, Everyone, s);
    assert (ArenaFor(mem, nodes[s]) != 0) == (nodes[s].bank != 0);
  }

  /** Every page a walk reports lies in one leaf's own frame, so one translation covers it. */
  lemma {:induction false} PagesInUse(cfg: PageTables.Config, a: PageTables.Forest, b: PageTables.Forest, mem: Physical, g: Layout, tree: nat, va: nat, size: nat, i: nat)
    requires PageTables.WellFormed(cfg, a) && Sane(a, mem, g, Everyone) && NodesRouted(a, mem) && OwnsAll(a)
    requires TreeFacts.Evolves(a, b, None) && forall x :: va <= x < va + size ==> PageTables.LeafOf(cfg, a, tree, x).Some?
    requires i < |Pages(cfg, b, tree, va, size)|
    ensures RunInUse(mem, Pages(cfg, b, tree, va, size)[i])
    decreases size
  {
    hide PageTables.WellFormed, Sane, PageTables.LeafOf, PageTables.LeafSize, RunInUse, OwnsAll, NodesRouted, TreeFacts.Evolves;
    var s := PageTables.LeafOf(cfg, a, tree, va).value;
    var unit := PageTables.LeafSize(a, s);
    var step := WalkModel.PageStep(unit, va, size);
    LeafKept(cfg, a, b, None, tree, va);
    PagesStart(cfg, b, tree, va, size, s);
    if i == 0 {
      ByteInFrame(cfg, a, tree, va);
      OwnsThis(a, s);
      SameFrame(a, b, s);
      FrameInUse(a, mem, g, s, Pages(cfg, b, tree, va, size)[0]);
    } else {
      PagesInUse(cfg, a, b, mem, g, tree, va + step, size - step, i - 1);
    }
  }

  lemma SameFrame(a: PageTables.Forest, b: PageTables.Forest, s: PageTables.Slot)
    requires TreeFacts.Evolves(a, b, None) && s in a
    ensures s in b && b[s].phys == a[s].phys && b[s].bank == a[s].bank
  {
  }

  lemma OwnsThis(nodes: PageTables.Forest, s: PageTables.Slot)
    requires OwnsAll(nodes) && s in nodes && !PageTables.IsTable(nodes[s].kind)
    ensures nodes[s].reserved == PageTables.LeafSize(nodes, s)
  {
  }

  /** A table entry lies in its table's frame, so one translation covers it. */
  lemma EntryInUse(cfg: PageTables.Config, nodes: PageTables.Forest, mem: Physical, g: Layout, s: PageTables.Slot)
    requires PageTables.ValidConfig(cfg) && PageTables.WellFormed(cfg, nodes) && Sane(nodes, mem, g, Everyone) && NodesRouted(nodes, mem)
    requires s in nodes && PageTables.Parent(s) in nodes
    ensures RunInUse(mem, Run(PageTables.EntryAddress(nodes, s), 8, Streams.RootLocal(cfg, nodes, s.tree)))
  {
    hide PageTables.WellFormed, Sane, RunInUse, NodesRouted;
    var p := PageTables.Parent(s);
    BelowRoot(cfg, nodes, s);
    StreamCoherence.ParentTable(cfg, nodes, s);
    StreamCoherence.TableBank(cfg, nodes, p);
    StreamCoherence.TableFrameSize(nodes, mem, g, Everyone, p);
    FrameInUse(nodes, mem, g, p, Run(PageTables.EntryAddress(nodes, s), 8, Streams.RootLocal(cfg, nodes, s.tree)));
  }

  /** The tables after a block has been given host memory at p. */
  function MapBlock(ts: HostTables, local: bool, b: Block, p: nat): HostTables {
    var t := MapPages(Table(ts, local), b.addr / PAGE_4KB, b.size / PAGE_4KB, p);
    if local then ts.(local := t) else ts.(system := t)
  }

  /** No host byte of p.. is in use yet. */
  ghost predicate FreshHost(ts: HostTables, p: nat, n: nat) {
    forall a :: Behind(ts, a).Some? ==> Behind(ts, a).value < p || p + n <= Behind(ts, a).value
  }

  lemma MapBlockMoves(ts: HostTables, local: bool, b: Block, p: nat, a: Place)
    requires b.addr % PAGE_4KB == 0 && b.size % PAGE_4KB == 0
    ensures Behind(MapBlock(ts, local, b, p), a) ==
            if a.local == local && b.addr <= a.addr < b.addr + b.size then Some(p + (a.addr - b.addr)) else Behind(ts, a)
  {
    hide HostOf;
    MapPagesMoves(Table(ts, local), b.addr, b.size, p, a.addr);
  }

  lemma MappingStaysSeparate(ts: HostTables, local: bool, b: Block, p: nat)
    requires Separate(ts) && FreshHost(ts, p, b.size) && b.addr % PAGE_4KB == 0 && b.size % PAGE_4KB == 0
    ensures Separate(MapBlock(ts, local, b, p))
  {
    hide HostOf, MapBlock;
    forall a, c | a != c && Behind(MapBlock(ts, local, b, p), a).Some?
      ensures Behind(MapBlock(ts, local, b, p), a) != Behind(MapBlock(ts, local, b, p), c) {
      MapBlockMoves(ts, local, b, p, a);
      MapBlockMoves(ts, local, b, p, c);
    }
  }

  lemma BacksByPlaces(ts: HostTables, local: bool, addr: nat, n: nat, base: nat)
    requires forall a: Place :: a.local == local && addr <= a.addr < addr + n ==> Behind(ts, a) == Some(base + (a.addr - addr))
    ensures Backs(Table(ts, local), addr, n, base)
  {
    forall x: nat | addr <= x < addr + n ensures HostOf(Table(ts, local), x) == Some(base + (x - addr)) {
      assert Behind(ts, Place(local, x)) == Some(base + (x - addr));
    }
  }

  lemma BlockStaysBacked(ts: HostTables, local: bool, b: Block, p: nat, run: Run)
    requires RunBacked(ts, run) && b.addr % PAGE_4KB == 0 && b.size % PAGE_4KB == 0
    requires run.local == local ==> FrameAllocator.Disjoint(Block(run.phys, run.size), b)
    ensures RunBacked(MapBlock(ts, local, b, p), run)
  {
    hide MapBlock, HostOf, Backs;
    var base: nat :| Backs(Table(ts, run.local), run.phys, run.size, base);
    forall a: Place | a.local == run.local && run.phys <= a.addr < run.phys + run.size
      ensures Behind(MapBlock(ts, local, b, p), a) == Some(base + (a.addr - run.phys)) {
      MapBlockMoves(ts, local, b, p, a);
      BehindBacked(ts, Place(run.local, run.phys), run.size, base, a);
    }
    BacksByPlaces(MapBlock(ts, local, b, p), run.local, run.phys, run.size, base);
  }

  /** A place inside some block in use. */
  ghost predicate PlaceInUse(mem: Physical, p: Place) {
    exists i, b :: InUse(mem, i, b) && (i != 0) == p.local && b.addr <= p.addr < b.addr + b.size
  }

  /** All that has been written lies in blocks in use. */
  ghost predicate KeysInUse(m: Memory, mem: Physical) {
    forall p :: p in m ==> PlaceInUse(mem, p)
  }

  /** The pages of a reservation are mapped in the table of the bank's kind, if local banks have allocators at all. */
  function MapReserved(ts: HostTables, mem: Physical, bank: nat, size: nat, p: nat): HostTables {
    MapBlock(ts, bank != 0 && |mem| > 1, Block(PhysicalMemory.Reserve(mem, bank, size, size).1, size), p)
  }

  /** A reservation that maps its block keeps every block in use backed, the new one included, and every byte written so far in its
      host byte. */
  lemma ReserveStaysBacked(ts: HostTables, h: Host, m: Memory, mem: Physical, g: Layout, bank: nat, size: nat, p: nat)
    requires ValidPhysical(mem, g) && HasArena(mem, bank) && PageSized(size)
    requires BlocksBacked(ts, mem) && Separate(ts) && FreshHost(ts, p, size) && Mirrors(h, ts, m) && KeysInUse(m, mem)
    requires WithinWindows(PhysicalMemory.Reserve(mem, bank, size, size).0, g)
    ensures var mem' := PhysicalMemory.Reserve(mem, bank, size, size).0; var ts' := MapReserved(ts, mem, bank, size, p);
      BlocksBacked(ts', mem') && Separate(ts') && Mirrors(h, ts', m) && KeysInUse(m, mem') && ValidPhysical(mem', g) && Grows(mem, mem')
  {
    hide ValidPhysical, WithinWindows, PhysicalMemory.Reserve, RunBacked, MapBlock, FrameAllocator.Disjoint, Separate, FreshHost, InUse, Behind;
    ReserveFacts(mem, g, bank, size, size);
    var (mem', addr) := PhysicalMemory.Reserve(mem, bank, size, size);
    var b := Block(addr, size);
    var local := bank != 0 && |mem| > 1;
    var k := ArenaOf(|mem|, bank);
    assert (k != 0) == local;
    MappingStaysSeparate(ts, local, b, p);
    forall i, c | InUse(mem', i, c) ensures RunBacked(MapBlock(ts, local, b, p), Run(c.addr, c.size, i != 0)) {
      if i == k && c == b {
        NewBlockBacked(ts, local, b, p);
      } else {
        if (i != 0) == local { InUseDisjoint(mem', g, i, c, k, b); }
        SameBlock(c);
        BlockStaysBacked(ts, local, b, p, Run(c.addr, c.size, i != 0));
      }
    }
    forall q | q in m ensures PlaceInUse(mem', q) && Behind(MapBlock(ts, local, b, p), q) == Behind(ts, q) {
      assert PlaceInUse(mem, q);
      var i, c :| InUse(mem, i, c) && (i != 0) == q.local && c.addr <= q.addr < c.addr + c.size;
      assert InUse(mem', i, c);
      MapBlockMoves(ts, local, b, p, q);
      if q.local == local {
        NewIsOther(mem, mem', g, i, c, k, b);
        InUseDisjoint(mem', g, i, c, k, b);
        MissesBlock(c, b, q.addr);
      }
    }
  }

  /** A block in use is not the one handed out next. */
  lemma NewIsOther(mem: Physical, mem': Physical, g: Layout, i: nat, c: Block, k: nat, b: Block)
    requires InUse(mem, i, c) && forall d :: InUse(mem, k, d) ==> FrameAllocator.Disjoint(b, d)
    requires b.size > 0
    ensures i != k || c != b
  {
  }

  lemma MissesBlock(c: Block, b: Block, addr: nat)
    requires FrameAllocator.Disjoint(c, b) && c.addr <= addr < c.addr + c.size
    ensures !(b.addr <= addr < b.addr + b.size)
  {
  }

  /** A reserved block is backed where its pages will be looked for if and only if its bank is the main one or local banks have
      allocators. */
  lemma ReservedReachableExactly(ts: HostTables, mem: Physical, g: Layout, bank: nat, size: nat, p: nat)
    requires ValidPhysical(mem, g) && HasArena(mem, bank) && PageSized(size) && FreshHost(ts, p, size)
    ensures var addr := PhysicalMemory.Reserve(mem, bank, size, size).1; var ts' := MapReserved(ts, mem, bank, size, p);
      Backs(Table(ts', bank != 0), addr, size, p) <==> Routed(mem, bank)
  {
    hide ValidPhysical, PhysicalMemory.Reserve, HostOf, FrameAllocator.Disjoint, InUse;
    ReserveFacts(mem, g, bank, size, size);
    var addr := PhysicalMemory.Reserve(mem, bank, size, size).1;
    var b := Block(addr, size);
    var ts' := MapReserved(ts, mem, bank, size, p);
    if Routed(mem, bank) {
      forall a: Place | a.local == (bank != 0) && addr <= a.addr < addr + size ensures Behind(ts', a) == Some(p + (a.addr - addr)) {
        MapBlockMoves(ts, bank != 0, b, p, a);
      }
      BacksByPlaces(ts', bank != 0, addr, size, p);
    } else {
      MapBlockMoves(ts, false, b, p, Place(true, addr));
      FreshIsElsewhere(ts, p, size, Place(true, addr));
      if Backs(Table(ts', true), addr, size, p) { FirstByteBacked(Table(ts', true), addr, size, p); }
    }
  }

  lemma FreshIsElsewhere(ts: HostTables, p: nat, n: nat, a: Place)
    requires FreshHost(ts, p, n) && n > 0
    ensures Behind(ts, a) != Some(p)
  {
  }

  lemma FirstByteBacked(t: HostTable, addr: nat, n: nat, p: nat)
    requires Backs(t, addr, n, p) && n > 0
    ensures HostOf(t, addr) == Some(p)
  {
    hide HostOf;
    assert HostOf(t, addr) == Some(p + (addr - addr));
  }

  /** One allocator and a page of bank 1: the page is backed in the system table, so that a write to it as local memory is dropped and a
      read leaves the caller's buffer as it was. */
  lemma LocalPageIsLost(h: Host, p: nat, data: seq<Byte>, buffer: seq<Byte>)
    requires 0 < |data| == |buffer| <= PAGE_4KB
    ensures var mem := [Arena(0x8_0000, [], [])]; var ts := MapReserved(HostTables(map[], map[]), mem, 1, PAGE_4KB, p);
      && PhysicalMemory.Reserve(mem, 1, PAGE_4KB, PAGE_4KB).1 == 0x8_0000
      && StoreHost(ts, h, Place(true, 0x8_0000), data) == h
      && ReadHost(ts, h, Run(0x8_0000, |data|, true), buffer) == buffer
      && Behind(ts, Place(false, 0x8_0000)) == Some(p)
  {
    var mem := [Arena(0x8_0000, [], [])];
    assert Alloc(mem[0], PAGE_4KB, PAGE_4KB).1.addr == 0x8_0000;
    MapBlockMoves(HostTables(map[], map[]), false, Block(0x8_0000, PAGE_4KB), p, Place(false, 0x8_0000));
  }

  lemma SameBlock(c: Block)
    ensures Block(c.addr, c.size) == c
  {
  }

  lemma NewBlockBacked(ts: HostTables, local: bool, b: Block, p: nat)
    requires b.addr % PAGE_4KB == 0 && b.size % PAGE_4KB == 0
    ensures RunBacked(MapBlock(ts, local, b, p), Run(b.addr, b.size, local))
  {
    hide MapBlock, HostOf, Backs;
    forall a: Place | a.local == local && b.addr <= a.addr < b.addr + b.size
      ensures Behind(MapBlock(ts, local, b, p), a) == Some(p + (a.addr - b.addr)) {
      MapBlockMoves(ts, local, b, p, a);
    }
    BacksByPlaces(MapBlock(ts, local, b, p), local, b.addr, b.size, p);
  }
}
