/** The address spaces a trace names for page-table entries: the same for walks and frees but for one level of legacy tables. */
module AddressSpaces {
  import opened Wrappers
  import opened PageTables
  import opened WalkModel

  const TRACE_LOCAL: nat := 1
  const TRACE_NONLOCAL: nat := 2
  const TRACE_PPGTT_ENTRY: nat := 6
  const TRACE_PHYSICAL_PDP_ENTRY: nat := 8
  const TRACE_PPGTT_PD_ENTRY: nat := 9
  const TRACE_PML4_ENTRY: nat := 10

  predicate LegacySpaces(levels: nat, local: bool) {
    levels <= 4 && !local
  }

  function MemorySpace(local: bool): nat {
    if local then TRACE_LOCAL else TRACE_NONLOCAL
  }

  /** Where writePageWalkEntries sends the entries of a level, level 0 being the pages. */
  function WalkSpace(levels: nat, local: bool, level: nat): nat
    requires level < levels
  {
    if !LegacySpaces(levels, local) then MemorySpace(local)
    else if level == 0 then TRACE_PPGTT_ENTRY
    else if level == 1 then TRACE_PPGTT_PD_ENTRY
    else if level == 2 then TRACE_PHYSICAL_PDP_ENTRY
    else TRACE_PML4_ENTRY
  }

  /** Where freeMemory sends the entries it clears: the two lowest levels go the way of a walk's, a PDP's do not. */
  function FreeSpace(levels: nat, local: bool, level: nat): nat
    requires level < 3
  {
    if level == 2 || !LegacySpaces(levels, local) then MemorySpace(local)
    else if level == 0 then TRACE_PPGTT_ENTRY
    else TRACE_PPGTT_PD_ENTRY
  }

  /** What a reader that tells address spaces apart has last been given. */
  type SpaceSink = map<(nat, nat), Entry>

  function StoreIn(sink: SpaceSink, space: nat, list: seq<PageEntryInfo>): SpaceSink
    decreases |list|
  {
    if list == [] then sink else StoreIn(sink[(space, list[0].address) := list[0].entry], space, list[1..])
  }

  lemma {:induction false} OtherSpaceKept(sink: SpaceSink, space: nat, list: seq<PageEntryInfo>, other: nat, addr: nat)
    requires other != space
    ensures (other, addr) in StoreIn(sink, space, list) <==> (other, addr) in sink
    ensures (other, addr) in sink ==> StoreIn(sink, space, list)[(other, addr)] == sink[(other, addr)]
    decreases |list|
  {
    if list != [] { OtherSpaceKept(sink[(space, list[0].address) := list[0].entry], space, list[1..], other, addr); }
  }

  lemma {:induction false} ZeroStored(sink: SpaceSink, space: nat, list: seq<PageEntryInfo>, addr: nat)
    requires forall e :: e in list ==> e.entry == Cleared
    requires (exists e :: e in list && e.address == addr) || ((space, addr) in sink && sink[(space, addr)] == Cleared)
    ensures (space, addr) in StoreIn(sink, space, list) && StoreIn(sink, space, list)[(space, addr)] == Cleared
    decreases |list|
  {
    if list != [] {
      forall e | e in list && e.address == addr ensures e == list[0] || e in list[1..] {}
      ZeroStored(sink[(space, list[0].address) := list[0].entry], space, list[1..], addr);
    }
  }

  /** An entry that a walk streamed and a free cleared reads as zero where the walk put it, if and only if the table is not a PDP in
      the legacy address spaces, whose zeros go to system memory at large. */
  lemma ClearedWhereWrittenExactly(levels: nat, local: bool, level: nat, sink: SpaceSink, entry: Entry, list: seq<PageEntryInfo>, addr: nat)
    requires level < 3 && level < levels && entry != Cleared
    requires (forall e :: e in list ==> e.entry == Cleared) && exists e :: e in list && e.address == addr
    ensures var at := (WalkSpace(levels, local, level), addr);
      var r := StoreIn(sink[at := entry], FreeSpace(levels, local, level), list);
      at in r && (r[at] == Cleared <==> !(level == 2 && LegacySpaces(levels, local)))
  {
    hide WalkSpace, FreeSpace, StoreIn, LegacySpaces;
    var at := (WalkSpace(levels, local, level), addr);
    SpacesAgreeExactly(levels, local, level);
    if level == 2 && LegacySpaces(levels, local) {
      OtherSpaceKept(sink[at := entry], FreeSpace(levels, local, level), list, WalkSpace(levels, local, level), addr);
    } else {
      ZeroStored(sink[at := entry], FreeSpace(levels, local, level), list, addr);
    }
  }

  lemma SpacesAgreeExactly(levels: nat, local: bool, level: nat)
    requires level < 3 && level < levels
    ensures FreeSpace(levels, local, level) == WalkSpace(levels, local, level) <==> !(level == 2 && LegacySpaces(levels, local))
  {
  }
}
