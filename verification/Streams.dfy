/** The sinks behind a stream, the flags that gate them, and the commit of a walk's entries. */
module Streams {
  import opened Wrappers
  import opened Arithmetic
  import opened PageTables
  import opened WalkModel
  import opened WalkStream

  /** A physical location as the trace names it: an address space and an address in it. */
  datatype Location = Location(local: bool, addr: nat)

  /** The page-table entries a sink has last been given, by location. */
  type Sink = map<Location, Entry>

  function Store(sink: Sink, local: bool, list: seq<PageEntryInfo>): Sink
    decreases |list|
  {
    if list == [] then sink
    else Store(sink[Location(local, list[0].address) := list[0].entry], local, list[1..])
  }

  /** A plain stream always writes; the two combined streams pause their AUB file, and one can also block its TBX side. */
  datatype Stream =
    | Plain(sink: Sink)
    | AubTbx(isAubFileStreamPaused: bool, aub: Sink, tbx: Sink)
    | AubShm(isAubFileStreamPaused: bool, isTbxStreamBlockedForMemWrites: bool, aub: Sink, tbx: Sink)

  /** writeDiscontiguousPages on page-table entries. */
  function WriteEntries(st: Stream, local: bool, list: seq<PageEntryInfo>): Stream {
    match st
    case Plain(sink) => Plain(Store(sink, local, list))
    case AubTbx(paused, aub, tbx) =>
      AubTbx(paused, if paused then aub else Store(aub, local, list), Store(tbx, local, list))
    case AubShm(paused, blocked, aub, tbx) =>
      AubShm(paused, blocked, if paused then aub else Store(aub, local, list), if blocked then tbx else Store(tbx, local, list))
  }

  /** arePageTableWritesFullyCommitted */
  predicate Committed(st: Stream) {
    match st
    case Plain(_) => true
    case AubTbx(paused, _, _) => !paused
    case AubShm(paused, blocked, _, _) => !paused && !blocked
  }

  function Sinks(st: Stream): set<Sink> {
    match st
    case Plain(sink) => {sink}
    case AubTbx(_, aub, tbx) => {aub, tbx}
    case AubShm(_, _, aub, tbx) => {aub, tbx}
  }

  function ClearPending(nodes: Forest, list: seq<Slot>): Forest {
    if list == [] then nodes
    else ClearPending(if list[0] in nodes then nodes[list[0] := nodes[list[0]].(pending := false)] else nodes, list[1..])
  }

  /** The entries of the levels above `level`, highest first. */
  function WriteLevels(st: Stream, local: bool, table: PerLevel<PageEntryInfo>, level: nat): Stream
    requires level <= 5
    decreases level
  {
    if level == 0 then st else WriteLevels(WriteEntries(st, local, table[level - 1]), local, table, level - 1)
  }

  function ClearLevels(nodes: Forest, pendingNodes: PerLevel<Slot>, level: nat): Forest
    requires level <= 5
    decreases 5 - level
  {
    if level == 5 then nodes else ClearLevels(ClearPending(nodes, pendingNodes[level]), pendingNodes, level + 1)
  }

  /** Page tables live in local memory exactly when their root does. */
  predicate RootLocal(cfg: Config, nodes: Forest, tree: nat) {
    Root(cfg, tree) in nodes && nodes[Root(cfg, tree)].bank != 0
  }

  /** writePageWalkEntries: stream every level, and forget the pending marks only if every sink took them. */
  function Commit(cfg: Config, st: Stream, w: Walk): (Stream, Forest) {
    (WriteLevels(st, RootLocal(cfg, w.nodes, w.tree), w.table, 5),
     if Committed(st) then ClearLevels(w.nodes, w.pendingNodes, 0) else w.nodes)
  }

  // ---- what a sink holds ----

  function LocationOf(cfg: Config, nodes: Forest, s: Slot): Location {
    Location(RootLocal(cfg, nodes, s.tree), EntryAddress(nodes, s))
  }

  /** Every node not waiting to be written is in the sink with its current value. */
  ghost predicate Coherent(cfg: Config, nodes: Forest, sink: Sink) {
    forall s :: s in nodes && s.level < cfg.levels && !nodes[s].pending ==>
      LocationOf(cfg, nodes, s) in sink && sink[LocationOf(cfg, nodes, s)] == EntryOf(cfg, nodes[s])
  }

  /** No two table entries share a location. */
  ghost predicate SlotsApart(cfg: Config, nodes: Forest) {
    forall s, t :: s in nodes && t in nodes && s != t && s.level < cfg.levels && t.level < cfg.levels ==>
      LocationOf(cfg, nodes, s) != LocationOf(cfg, nodes, t)
  }

  // ---- storing a list ----

  /** Entries for other slots go to other locations. */
  ghost predicate GoesTo(list: seq<PageEntryInfo>, local: bool, s: Slot, at: Location) {
    forall i :: 0 <= i < |list| ==> (Location(local, list[i].address) == at <==> list[i].slot == s)
  }

  lemma {:induction false} StoreAppend(sink: Sink, local: bool, list: seq<PageEntryInfo>, e: PageEntryInfo)
    ensures Store(sink, local, list + [e]) == Store(sink, local, list)[Location(local, e.address) := e.entry]
    decreases |list|
  {
    if list != [] {
      assert (list + [e])[1..] == list[1..] + [e];
      StoreAppend(sink[Location(local, list[0].address) := list[0].entry], local, list[1..], e);
    } else {
      assert [e][1..] == [];
    }
  }

  /** A location ends up with the last entry listed for its slot. */
  lemma {:induction false} StoreKeepsLast(sink: Sink, local: bool, list: seq<PageEntryInfo>, s: Slot, at: Location)
    requires GoesTo(list, local, s, at)
    ensures var r := Store(sink, local, list);
      if Last(list, s) == None then (at in r <==> at in sink) && (at in sink ==> r[at] == sink[at])
      else at in r && r[at] == Last(list, s).value
    decreases |list|
  {
    if list != [] {
      var front := list[..|list| - 1];
      assert list == front + [list[|list| - 1]];
      StoreAppend(sink, local, front, list[|list| - 1]);
      StoreKeepsLast(sink, local, front, s, at);
    }
  }

  /** The five lists of a walk, in the order they are written. */
  function StoreLevels(sink: Sink, local: bool, table: PerLevel<PageEntryInfo>, level: nat): Sink
    requires level <= 5
    decreases level
  {
    if level == 0 then sink else StoreLevels(Store(sink, local, table[level - 1]), local, table, level - 1)
  }

  lemma {:induction false} WriteLevelsStores(st: Stream, local: bool, table: PerLevel<PageEntryInfo>, level: nat)
    requires level <= 5
    decreases level
    ensures var r := WriteLevels(st, local, table, level);
      match st
      case Plain(sink) => r == Plain(StoreLevels(sink, local, table, level))
      case AubTbx(paused, aub, tbx) =>
        r == AubTbx(paused, if paused then aub else StoreLevels(aub, local, table, level), StoreLevels(tbx, local, table, level))
      case AubShm(paused, blocked, aub, tbx) =>
        r == AubShm(paused, blocked, if paused then aub else StoreLevels(aub, local, table, level),
                    if blocked then tbx else StoreLevels(tbx, local, table, level))
  {
    hide Store;
    if level > 0 { WriteLevelsStores(WriteEntries(st, local, table[level - 1]), local, table, level - 1); }
  }

  /** With every slot at its own location, the levels do not disturb each other. */
  lemma {:induction false} StoreLevelsKeepsLast(sink: Sink, local: bool, table: PerLevel<PageEntryInfo>, level: nat, s: Slot, at: Location)
    requires level <= 5
    requires forall l :: 0 <= l < level ==> GoesTo(table[l], local, s, at)
    requires forall l :: 0 <= l < level && l != s.level ==> Last(table[l], s) == None
    ensures var r := StoreLevels(sink, local, table, level); var last := if s.level < level then Last(table[s.level], s) else None;
      if last == None then (at in r <==> at in sink) && (at in sink ==> r[at] == sink[at])
      else at in r && r[at] == last.value
    decreases level
  {
    hide GoesTo, Last, Store;
    if level > 0 {
      StoreKeepsLast(sink, local, table[level - 1], s, at);
      StoreLevelsKeepsLast(Store(sink, local, table[level - 1]), local, table, level - 1, s, at);
    }
  }

  // ---- clearing ----

  lemma {:induction false} ClearPendingFacts(nodes: Forest, list: seq<Slot>)
    ensures var r := ClearPending(nodes, list);
      && r.Keys == nodes.Keys
      && (forall s :: s in nodes ==> r[s] == if s in list then nodes[s].(pending := false) else nodes[s])
    decreases |list|
  {
    if list != [] {
      ClearPendingFacts(if list[0] in nodes then nodes[list[0] := nodes[list[0]].(pending := false)] else nodes, list[1..]);
    }
  }

  lemma {:induction false} ClearLevelsFacts(nodes: Forest, pendingNodes: PerLevel<Slot>, level: nat)
    requires level <= 5
    ensures var r := ClearLevels(nodes, pendingNodes, level);
      && r.Keys == nodes.Keys
      && (forall s :: s in nodes ==>
            r[s] == if exists l :: level <= l < 5 && s in pendingNodes[l] then nodes[s].(pending := false) else nodes[s])
    decreases 5 - level
  {
    if level < 5 {
      ClearPendingFacts(nodes, pendingNodes[level]);
      ClearLevelsFacts(ClearPending(nodes, pendingNodes[level]), pendingNodes, level + 1);
    }
  }

  /** The tree after a commit: the same nodes, emitted ones no longer pending. */
  lemma CommitClears(cfg: Config, n0: Forest, st: Stream, w: Walk)
    requires Queued(cfg, n0, w, {})
    ensures var r := Commit(cfg, st, w).1;
      && r.Keys == w.nodes.Keys
      && (forall s :: s in w.nodes ==> r[s] == if Committed(st) && s in w.emitted then w.nodes[s].(pending := false) else w.nodes[s])
  {
    hide QuietOk, EmittedOk, PendingOk, AddressesOk;
    ClearLevelsFacts(w.nodes, w.pendingNodes, 0);
    forall s | s in w.nodes
      ensures (exists l :: 0 <= l < 5 && s in w.pendingNodes[l]) <==> s in w.emitted {
      if s in w.emitted { assert s in w.pendingNodes[s.level]; }
    }
  }
}
