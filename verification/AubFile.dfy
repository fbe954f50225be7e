/** The AUB file writer: arbitrary writes cut into records whose length field is 16 bits, and what a reader gets back. */
module AubFile {
  import opened Wrappers
  import opened Packets
  import WalkModel
  import opened AddressSpaces

  /** What happens in a trace, in order: a byte of memory is written, in an address space, or a message is noted. */
  datatype Event = ByteWrite(space: nat, address: nat, value: Byte) | Message(text: seq<Byte>)

  function Spread(space: nat, address: nat, data: seq<Byte>): seq<Event> {
    seq(|data|, i requires 0 <= i < |data| => ByteWrite(space, address + i, data[i]))
  }

  function PairWrites(space: nat, slots: seq<Pair>, count: nat, data: seq<Byte>): seq<Event>
    requires count <= |slots| && SumSizes(slots, count) <= |data|
  {
    if count == 0 then []
    else PairWrites(space, slots, count - 1, data)
         + Spread(space, slots[count - 1].address, data[SumSizes(slots, count - 1)..SumSizes(slots, count)])
  }

  /** What reading a record does to memory. */
  function Writes(p: Packet): seq<Event>
    requires FieldsFit(p)
  {
    match p
    case MemoryWrite(address, _, space, data) => Spread(space, address, data)
    case MemoryWriteDiscontiguous(_, space, count, slots, data) => PairWrites(space, slots, count, data)
    case Comment(_) => []
  }

  /** The text up to its terminating zero. */
  function Text(notes: seq<Byte>): seq<Byte> {
    if notes == [] || notes[0] == 0 then [] else [notes[0]] + Text(notes[1..])
  }

  /** The text of a message whose terminating zero has not come yet. */
  function Held(packets: seq<Packet>): seq<Byte> {
    if packets == [] then []
    else
      var held, last := Held(packets[..|packets| - 1]), packets[|packets| - 1];
      if !last.Comment? then held else if 0 in last.data then [] else held + last.data
  }

  /** A message goes on from comment record to comment record until a zero ends it. */
  function Events(packets: seq<Packet>): seq<Event>
    requires forall p :: p in packets ==> FieldsFit(p)
  {
    if packets == [] then []
    else
      var front, last := packets[..|packets| - 1], packets[|packets| - 1];
      Events(front)
      + if last.Comment? && 0 in last.data then [Message(Held(front) + Text(last.data))] else Writes(last)
  }

  /** Read a file: its writes and messages in order, and the text of a message that was cut short. */
  function Replay(file: seq<Byte>): Option<(seq<Event>, seq<Byte>)> {
    match ReadAll(file)
    case None => None
    case Some(packets) => if forall p :: p in packets ==> FieldsFit(p) then Some((Events(packets), Held(packets))) else None
  }

  // ---- the reference ----

  /** Where entry k's bytes start in the memory handed over with a table. */
  function Offset(table: seq<WalkModel.PageInfo>, k: nat): nat
    requires k <= |table|
  {
    if k == 0 then 0 else Offset(table, k - 1) + table[k - 1].size
  }

  /** The bytes of the first k entries, each at its own address and in its own address space. */
  function PageWrites(table: seq<WalkModel.PageInfo>, memory: seq<Byte>, k: nat): seq<Event>
    requires k <= |table| && Offset(table, k) <= |memory|
  {
    if k == 0 then []
    else
      PageWrites(table, memory, k - 1)
      + Spread(MemorySpace(table[k - 1].local), table[k - 1].phys, memory[Offset(table, k - 1)..Offset(table, k)])
  }

  lemma {:induction false} OffsetGrows(table: seq<WalkModel.PageInfo>, i: nat, k: nat)
    requires i <= k <= |table|
    ensures Offset(table, i) <= Offset(table, k)
    decreases k
  {
    if i < k { OffsetGrows(table, i, k - 1); }
  }

  /** An 8-byte table entry to write. */
  datatype TableEntry = TableEntry(address: nat, value: nat)

  function EntryWrites(table: seq<TableEntry>, space: nat, k: nat): seq<Event>
    requires k <= |table| && forall i :: 0 <= i < |table| ==> table[i].value < TWO_TO_64
  {
    if k == 0 then [] else EntryWrites(table, space, k - 1) + Spread(space, table[k - 1].address, Le64(table[k - 1].value))
  }

  lemma SpreadConcat(space: nat, address: nat, a: seq<Byte>, b: seq<Byte>)
    ensures Spread(space, address, a + b) == Spread(space, address, a) + Spread(space, address + |a|, b)
  {
  }

  lemma SpreadNothing(space: nat, address: nat)
    ensures Spread(space, address, []) == []
  {
  }

  // ---- the pending part of a discontiguous record ----

  /** Pair k is the address and size of entry dumpStart + k, which has whole dwords in the table's address space. */
  ghost predicate HoldsEntry(table: seq<WalkModel.PageInfo>, slots: seq<Pair>, dumpStart: nat, local: bool, k: nat)
    requires k < |slots| && dumpStart + k < |table|
  {
    var entry := table[dumpStart + k];
    slots[k] == Pair(entry.phys, entry.size) && entry.local == local && entry.size % 4 == 0
  }

  ghost predicate PairFits(p: Pair) {
    p.address < TWO_TO_64 && p.size < TWO_TO_32
  }

  /** The slots hold entries dumpStart..current-1 of the table, all fit for one record in the table's address space. */
  ghost predicate SlotsHold(table: seq<WalkModel.PageInfo>, slots: seq<Pair>, dumpStart: nat, current: nat, local: bool) {
    && dumpStart <= current <= |table| && current - dumpStart <= MAX_PAIRS == |slots|
    && (forall k :: 0 <= k < |slots| ==> PairFits(slots[k]))
    && (forall k :: 0 <= k < current - dumpStart ==> HoldsEntry(table, slots, dumpStart, local, k))
  }

  /** The pending pairs and the size their record would have; 0 when there are none. */
  ghost predicate Pending(table: seq<WalkModel.PageInfo>, slots: seq<Pair>, dumpStart: nat, current: nat, local: bool, dwordCount: nat, size: nat) {
    && SlotsHold(table, slots, dumpStart, current, local)
    && Offset(table, dumpStart) <= Offset(table, current) <= size
    && (Offset(table, current) - Offset(table, dumpStart)) % 4 == 0
    && (if current == dumpStart then dwordCount == 0
        else dwordCount == 190 + (Offset(table, current) - Offset(table, dumpStart)) / 4 <= 0xffff)
  }

  lemma NothingPending(table: seq<WalkModel.PageInfo>, slots: seq<Pair>, current: nat, local: bool, size: nat)
    requires SlotsHold(table, slots, current, current, local) && Offset(table, current) <= size
    ensures Pending(table, slots, current, current, local, 0, size)
  {
  }

  lemma EntryAdded(table: seq<WalkModel.PageInfo>, slots: seq<Pair>, dumpStart: nat, current: nat, local: bool, dwordCount: nat, size: nat)
    requires SlotsHold(table, slots, dumpStart, current, local) && current < |table| && current - dumpStart < MAX_PAIRS
    requires table[current].local == local && table[current].size % 4 == 0 && table[current].phys < TWO_TO_64
    requires Offset(table, dumpStart) <= Offset(table, current) && Offset(table, current + 1) <= size
    requires (Offset(table, current) - Offset(table, dumpStart)) % 4 == 0
    requires dwordCount == 190 + (Offset(table, current) - Offset(table, dumpStart)) / 4
    requires DwordsFor(table[current].size) + dwordCount <= 0xffff
    ensures Pending(table, slots[current - dumpStart := Pair(table[current].phys, table[current].size)], dumpStart, current + 1, local,
                    dwordCount + DwordsFor(table[current].size), size)
  {
    SlotAdded(table, slots, dumpStart, current, local);
  }

  lemma SlotsStayPairs(table: seq<WalkModel.PageInfo>, slots: seq<Pair>, current: nat, local: bool)
    requires current <= |table| && |slots| == MAX_PAIRS
    requires forall k :: 0 <= k < |slots| ==> slots[k].address < TWO_TO_64 && slots[k].size < TWO_TO_32
    ensures SlotsHold(table, slots, current, current, local)
  {
  }

  lemma {:induction false} SlotsSum(table: seq<WalkModel.PageInfo>, slots: seq<Pair>, dumpStart: nat, current: nat, local: bool, k: nat)
    requires SlotsHold(table, slots, dumpStart, current, local) && k <= current - dumpStart
    ensures SumSizes(slots, k) == Offset(table, dumpStart + k) - Offset(table, dumpStart)
    ensures SumSizes(slots, k) % 4 == 0
    decreases k
  {
    if k > 0 {
      assert HoldsEntry(table, slots, dumpStart, local, k - 1);
      SlotsSum(table, slots, dumpStart, current, local, k - 1);
    }
  }

  lemma {:induction false} PairsAreEntries(table: seq<WalkModel.PageInfo>, memory: seq<Byte>, slots: seq<Pair>, dumpStart: nat, current: nat,
                                          local: bool, data: seq<Byte>, k: nat)
    requires SlotsHold(table, slots, dumpStart, current, local) && k <= current - dumpStart
    requires Offset(table, dumpStart) <= Offset(table, dumpStart + k) <= Offset(table, current) <= |memory|
    requires data == memory[Offset(table, dumpStart)..Offset(table, current)]
    ensures SumSizes(slots, k) <= |data|
    ensures PageWrites(table, memory, dumpStart) + PairWrites(MemorySpace(local), slots, k, data) == PageWrites(table, memory, dumpStart + k)
    decreases k
  {
    hide Spread, SlotsHold;
    SlotBounds(table, slots, dumpStart, current, local);
    SlotsSum(table, slots, dumpStart, current, local, k);
    if k > 0 {
      OffsetGrows(table, dumpStart, dumpStart + k - 1);
      SlotsSum(table, slots, dumpStart, current, local, k - 1);
      PairsAreEntries(table, memory, slots, dumpStart, current, local, data, k - 1);
      SlotAt(table, slots, dumpStart, current, local, k - 1);
      SliceOfSlice(memory, Offset(table, dumpStart), Offset(table, current), Offset(table, dumpStart + k - 1), Offset(table, dumpStart + k));
      OneMorePair(PageWrites(table, memory, dumpStart), MemorySpace(local), slots, k, data, PageWrites(table, memory, dumpStart + k - 1));
    } else {
      assert PageWrites(table, memory, dumpStart) + [] == PageWrites(table, memory, dumpStart);
    }
  }

  lemma OneMorePair(before: seq<Event>, space: nat, slots: seq<Pair>, k: nat, data: seq<Byte>, almost: seq<Event>)
    requires 0 < k <= |slots| && SumSizes(slots, k - 1) <= SumSizes(slots, k) <= |data|
    requires before + PairWrites(space, slots, k - 1, data) == almost
    ensures before + PairWrites(space, slots, k, data)
      == almost + Spread(space, slots[k - 1].address, data[SumSizes(slots, k - 1)..SumSizes(slots, k)])
  {
    hide Spread, SumSizes;
  }

  lemma SlotBounds(table: seq<WalkModel.PageInfo>, slots: seq<Pair>, dumpStart: nat, current: nat, local: bool)
    requires SlotsHold(table, slots, dumpStart, current, local)
    ensures dumpStart <= current <= |table| && current - dumpStart <= |slots|
  {
  }

  lemma SliceOfSlice(m: seq<Byte>, a: nat, b: nat, low: nat, high: nat)
    requires a <= low <= high <= b <= |m|
    ensures m[a..b][low - a..high - a] == m[low..high]
  {
    var cut, direct := m[a..b][low - a..high - a], m[low..high];
    assert |cut| == |direct| && forall i :: 0 <= i < |cut| ==> cut[i] == direct[i];
  }

  lemma SlotAt(table: seq<WalkModel.PageInfo>, slots: seq<Pair>, dumpStart: nat, current: nat, local: bool, k: nat)
    requires SlotsHold(table, slots, dumpStart, current, local) && k < current - dumpStart
    ensures slots[k] == Pair(table[dumpStart + k].phys, table[dumpStart + k].size) && table[dumpStart + k].local == local
  {
    assert HoldsEntry(table, slots, dumpStart, local, k);
  }

  class AubFileStream {
    var file: seq<Byte>
    /** The records written so far. */
    ghost var records: seq<Packet>

    constructor ()
      ensures Valid() && file == []
    {
      file := [];
      records := [];
    }

    /** The file is the encoding of the records. */
    ghost predicate Encoded()
      reads this
    {
      (forall p :: p in records ==> FieldsFit(p)) && file == EncodeAll(records)
    }

    /** And no message is half written. */
    ghost predicate Valid()
      reads this
    {
      Encoded() && Held(records) == []
    }

    /** What reading the file now would do. */
    ghost function Trace(): seq<Event>
      reads this
      requires Encoded()
    {
      Events(records)
    }

    ghost method Recorded(p: Packet)
      requires FieldsFit(p) && (forall q :: q in records ==> FieldsFit(q)) && file == EncodeAll(records) + Encode(p)
      modifies this`records
      ensures Encoded() && records == old(records) + [p]
      ensures !p.Comment? ==> Held(records) == Held(old(records)) && Trace() == Events(old(records)) + Writes(p)
      ensures p.Comment? ==>
        && Held(records) == (if 0 in p.data then [] else Held(old(records)) + p.data)
        && Trace() == Events(old(records)) + if 0 in p.data then [Message(Held(old(records)) + Text(p.data))] else []
    {
      hide Encode, FieldsFit, Writes, Text;
      EncodeAppend(records, p);
      if p.Comment? { CommentWritesNothing(p); }
      records := records + [p];
      assert records[..|records| - 1] == old(records);
    }

    /** Write data and pad it to a dword. */
    method WriteData(data: seq<Byte>)
      modifies this`file
      ensures file == old(file) + Pad(data)
    {
      file := file + data;
      var remainder := |data| % 4;
      if remainder != 0 {
        file := file + seq(4 - remainder, i => 0);
      }
      assert file == old(file) + Pad(data);
    }

    /** One record: header, data, padding. */
    method WriteChunk(chunk: seq<Byte>, physAddress: nat, addressSpace: nat, hint: nat)
      requires Valid() && physAddress + |chunk| <= TWO_TO_64 && addressSpace < 16 && hint < 256 && 0 < |chunk| <= (0xffff - 5) * 4
      modifies this
      ensures Valid() && Trace() == old(Trace()) + Spread(addressSpace, physAddress, chunk)
    {
      hide FieldsFit, Encode, Prefix, EncodeAll, Events, Pad, Spread;
      var header := MemoryWrite(physAddress, hint, addressSpace, chunk);
      ChunkFits(header);
      file := file + Prefix(header);
      WriteData(chunk);
      assert file == old(file) + Encode(header) by { EncodeIs(header); }
      Recorded(header);
      assert Writes(header) == Spread(addressSpace, physAddress, chunk);
    }

    /** Chunks of at most 65530 dwords, each with its own five-dword header. */
    method WriteContiguousPages(memory: seq<Byte>, physAddress: nat, addressSpace: nat, hint: nat)
      requires Valid() && physAddress + |memory| <= TWO_TO_64 && addressSpace < 16 && hint < 256
      modifies this
      ensures Valid() && Trace() == old(Trace()) + Spread(addressSpace, physAddress, memory)
    {
      hide FieldsFit, EncodeAll, Events, Spread;
      var maxChunkSize := (0xffff - 5) * 4;
      var written: nat := 0;
      SpreadNothing(addressSpace, physAddress);
      assert memory[..0] == [];
      while written < |memory|
        invariant written <= |memory| && Valid()
        invariant Trace() == old(Trace()) + Spread(addressSpace, physAddress, memory[..written])
      {
        var chunkSize := if |memory| - written < maxChunkSize then |memory| - written else maxChunkSize;
        var chunk := memory[written..written + chunkSize];
        WriteChunk(chunk, physAddress + written, addressSpace, hint);
        SpreadConcat(addressSpace, physAddress, memory[..written], chunk);
        assert memory[..written] + chunk == memory[..written + chunkSize];
        written := written + chunkSize;
      }
      assert memory[..written] == memory;
    }

    /** One comment record. */
    method WriteNote(chunk: seq<Byte>)
      requires Encoded() && |chunk| <= (0xffff - 1) * 4
      modifies this
      ensures Encoded()
      ensures Held(records) == if 0 in Pad(chunk) then [] else old(Held(records)) + Pad(chunk)
      ensures Trace() == old(Trace()) + if 0 in Pad(chunk) then [Message(old(Held(records)) + Text(Pad(chunk)))] else []
    {
      hide FieldsFit, Encode, Prefix, EncodeAll, Events, Held, Text, Pad;
      var cmd := Comment(Pad(chunk));
      PadSize(chunk);
      CommentFits(cmd);
      file := file + Prefix(cmd);
      WriteData(chunk);
      assert file == old(file) + Encode(cmd) by { EncodeIs(cmd); PaddedAlready(chunk); }
      Recorded(cmd);
    }

    /** A message of non-zero bytes and its terminating zero, in records of at most 65534 dwords of text. */
    method AddComment(message: seq<Byte>)
      requires Valid() && 0 !in message
      modifies this
      ensures Valid() && Trace() == old(Trace()) + [Message(message)]
    {
      hide FieldsFit, EncodeAll, Events, Held, Text, Pad;
      var maxMessageBytesPerRecord := (0xffff - 1) * 4;
      var text := message + [0];
      var cursor: nat := 0;
      while cursor < |text|
        invariant cursor <= |text| && Encoded()
        invariant if cursor < |text| then cursor % 4 == 0 && Held(records) == text[..cursor] && Trace() == old(Trace())
                  else Held(records) == [] && Trace() == old(Trace()) + [Message(message)]
      {
        var chunkBytes := if |text| - cursor < maxMessageBytesPerRecord then |text| - cursor else maxMessageBytesPerRecord;
        CutOfMessage(message, cursor, chunkBytes);
        WriteNote(text[cursor..cursor + chunkBytes]);
        cursor := cursor + chunkBytes;
      }
    }

    /** The data of entries dumpStart..current-1. */
    method DumpData(memory: seq<Byte>, table: seq<WalkModel.PageInfo>, dumpStart: nat, current: nat)
      requires dumpStart <= current <= |table| && Offset(table, current) <= |memory|
      modifies this`file
      ensures Offset(table, dumpStart) <= Offset(table, current)
      ensures file == old(file) + memory[Offset(table, dumpStart)..Offset(table, current)]
    {
      var dump := dumpStart;
      OffsetGrows(table, dumpStart, current);
      while dump != current
        invariant dumpStart <= dump <= current
        invariant Offset(table, dumpStart) <= Offset(table, dump) <= Offset(table, current)
        invariant file == old(file) + memory[Offset(table, dumpStart)..Offset(table, dump)]
        decreases current - dump
      {
        OffsetGrows(table, dumpStart, dump + 1);
        OffsetGrows(table, dump + 1, current);
        var bytes := memory[Offset(table, dump)..Offset(table, dump + 1)];
        assert memory[Offset(table, dumpStart)..Offset(table, dump + 1)] == memory[Offset(table, dumpStart)..Offset(table, dump)] + bytes;
        file := file + bytes;
        dump := dump + 1;
      }
    }

    /** Emit the pending pairs and their data. */
    method Flush(memory: seq<Byte>, table: seq<WalkModel.PageInfo>, local: bool, hint: nat, slots: seq<Pair>, dumpStart: nat, current: nat)
      requires Valid() && hint < 256 && SlotsHold(table, slots, dumpStart, current, local)
      requires Offset(table, dumpStart) <= Offset(table, current) <= |memory|
      requires current > dumpStart ==> 190 + (Offset(table, current) - Offset(table, dumpStart)) / 4 < TWO_TO_16
      modifies this
      ensures Valid()
      ensures forall before {:trigger before + PageWrites(table, memory, dumpStart)} ::
        old(Trace()) == before + PageWrites(table, memory, dumpStart) ==> Trace() == before + PageWrites(table, memory, current)
    {
      hide FieldsFit, Encode, Prefix, EncodeAll, Events, PageWrites, Offset, DiscontiguousPrefix, PairWrites, Writes, Pad;
      if current == dumpStart { return; }
      ghost var data := memory[Offset(table, dumpStart)..Offset(table, current)];
      ghost var cmd := MemoryWriteDiscontiguous(hint, MemorySpace(local), current - dumpStart, slots, data);
      SlotsFit(table, slots, dumpStart, current, local, hint, data);
      PrefixIs(cmd);
      file := file + DiscontiguousPrefix(hint, MemorySpace(local), current - dumpStart, slots, 190 + (Offset(table, current) - Offset(table, dumpStart)) / 4);
      DumpData(memory, table, dumpStart, current);
      EncodeIs(cmd);
      AlignedNeedsNoPad(data);
      assert file == old(file) + Encode(cmd);
      Recorded(cmd);
      FlushWrites(memory, table, local, slots, dumpStart, current, cmd);
      forall before | old(Trace()) == before + PageWrites(table, memory, dumpStart)
        ensures Trace() == before + PageWrites(table, memory, current) {
        assert before + PageWrites(table, memory, dumpStart) + Writes(cmd) == before + (PageWrites(table, memory, dumpStart) + Writes(cmd));
      }
    }

    /** Pages as tables of pairs where they fit, as contiguous writes where they do not. */
    method WriteDiscontiguousPages(memory: seq<Byte>, table: seq<WalkModel.PageInfo>, hint: nat)
      requires Valid() && hint < 256 && |table| > 0 && |memory| == Offset(table, |table|)
      requires forall k :: 0 <= k < |table| ==> table[k].phys < TWO_TO_64 && table[k].phys + table[k].size <= TWO_TO_64
      modifies this
      ensures Valid() && Trace() == old(Trace()) + PageWrites(table, memory, |table|)
    {
      hide FieldsFit, EncodeAll, Events, PageWrites, Spread;
      var isLocalMemory := table[0].local;
      if |table| == 1 {
        WriteContiguousPages(memory, table[0].phys, MemorySpace(isLocalMemory), hint);
        OneEntry(table, memory);
        return;
      }
      var maxDwordCount, headerDwordCount := 0xffff, 190;
      var maxDataDwordCount := maxDwordCount - headerDwordCount;
      var slots: seq<Pair> := seq(MAX_PAIRS, i => Pair(0, 0));
      var dwordCount: nat, index: nat := 0, 0;
      var itorCurrent: nat, itorDumpStart: nat := 0, 0;
      assert old(Trace()) + PageWrites(table, memory, 0) == old(Trace()) by { NoEntries(table, memory); }
      NothingPending(table, slots, 0, isLocalMemory, |memory|);
      while itorCurrent != |table|
        invariant Valid() && Pending(table, slots, itorDumpStart, itorCurrent, isLocalMemory, dwordCount, |memory|)
        invariant index == itorCurrent - itorDumpStart
        invariant Trace() == old(Trace()) + PageWrites(table, memory, itorDumpStart)
        decreases |table| - itorCurrent
      {
        hide SlotsHold, Offset, DwordsFor;
        var writeInfo := table[itorCurrent];
        OffsetGrows(table, itorCurrent + 1, |table|);
        var dwords := DwordsFor(writeInfo.size);
        if writeInfo.size % 4 != 0 || writeInfo.phys % 4 != 0 || isLocalMemory != writeInfo.local || dwords > maxDataDwordCount {
          Flush(memory, table, isLocalMemory, hint, slots, itorDumpStart, itorCurrent);
          dwordCount, index := 0, 0;
          WriteEntry(memory, table, itorCurrent, hint, old(Trace()));
          itorCurrent := itorCurrent + 1;
          itorDumpStart := itorCurrent;
          SlotsStayPairs(table, slots, itorCurrent, isLocalMemory);
          NothingPending(table, slots, itorCurrent, isLocalMemory, |memory|);
        } else {
          if dwordCount == 0 {
            dwordCount := headerDwordCount;
          }
          if index >= MAX_PAIRS || dwords + dwordCount > maxDwordCount {
            Flush(memory, table, isLocalMemory, hint, slots, itorDumpStart, itorCurrent);
            itorDumpStart, index := itorCurrent, 0;
            dwordCount := headerDwordCount;
            SlotsStayPairs(table, slots, itorCurrent, isLocalMemory);
          }
          EntryAdded(table, slots, itorDumpStart, itorCurrent, isLocalMemory, dwordCount, |memory|);
          slots := slots[index := Pair(writeInfo.phys, writeInfo.size)];
          dwordCount := dwordCount + dwords;
          index := index + 1;
          itorCurrent := itorCurrent + 1;
        }
      }
      Flush(memory, table, isLocalMemory, hint, slots, itorDumpStart, itorCurrent);
    }

    /** One entry on its own, in its own address space. */
    method WriteEntry(memory: seq<Byte>, table: seq<WalkModel.PageInfo>, k: nat, hint: nat, ghost before: seq<Event>)
      requires Valid() && hint < 256 && k < |table| && Offset(table, k + 1) <= |memory|
      requires table[k].phys + table[k].size <= TWO_TO_64
      requires Trace() == before + PageWrites(table, memory, k)
      modifies this
      ensures Valid() && Trace() == before + PageWrites(table, memory, k + 1)
    {
      hide FieldsFit, EncodeAll, Events, Spread;
      WriteContiguousPages(memory[Offset(table, k)..Offset(table, k + 1)], table[k].phys, MemorySpace(table[k].local), hint);
      assert before + PageWrites(table, memory, k + 1)
        == before + PageWrites(table, memory, k) + Spread(MemorySpace(table[k].local), table[k].phys, memory[Offset(table, k)..Offset(table, k + 1)]);
    }

    /** Page-table entries, eight bytes each, in tables of up to 63. */
    method WriteTableEntries(table: seq<TableEntry>, addressSpace: nat, hint: nat)
      requires Valid() && hint < 256 && addressSpace < 16
      requires forall k :: 0 <= k < |table| ==> table[k].value < TWO_TO_64 && table[k].address + 8 <= TWO_TO_64
      modifies this
      ensures Valid() && Trace() == old(Trace()) + EntryWrites(table, addressSpace, |table|)
    {
      hide FieldsFit, EncodeAll, Events, EntryWrites, Spread, Le64;
      if |table| == 1 {
        WriteContiguousPages(Le64(table[0].value), table[0].address, addressSpace, hint);
        OneTableEntry(table, addressSpace);
        return;
      }
      var slots: seq<Pair> := seq(MAX_PAIRS, i => Pair(0, 0));
      var index: nat, dwordCount: nat := 0, 0;
      var itorCurrent: nat, itorDumpStart: nat := 0, 0;
      assert old(Trace()) + EntryWrites(table, addressSpace, 0) == old(Trace()) by { NoTableEntries(table, addressSpace); }
      while itorCurrent != |table|
        invariant itorDumpStart <= itorCurrent <= |table| && Valid() && index == itorCurrent - itorDumpStart
        invariant EntriesHeld(table, slots, itorDumpStart, itorCurrent)
        invariant Trace() == old(Trace()) + EntryWrites(table, addressSpace, itorDumpStart)
        invariant dwordCount == if itorCurrent == 0 then 0 else 190 + 2 * index
        invariant itorCurrent > 0 ==> index > 0
        decreases |table| - itorCurrent
      {
        if index >= MAX_PAIRS || 2 + dwordCount > 0xffff {
          FlushEntries(table, addressSpace, hint, slots, itorDumpStart, itorCurrent, old(Trace()));
          itorDumpStart := itorCurrent;
          dwordCount := 0;
        }
        if dwordCount == 0 {
          dwordCount := 190;
          index := 0;
        }
        slots := slots[index := Pair(table[itorCurrent].address, 8)];
        dwordCount := dwordCount + 2;
        index := index + 1;
        itorCurrent := itorCurrent + 1;
      }
      if index > 0 {
        FlushEntries(table, addressSpace, hint, slots, itorDumpStart, itorCurrent, old(Trace()));
      }
    }

    method FlushEntries(table: seq<TableEntry>, addressSpace: nat, hint: nat, slots: seq<Pair>, dumpStart: nat, current: nat, ghost before: seq<Event>)
      requires Valid() && hint < 256 && addressSpace < 16 && EntriesHeld(table, slots, dumpStart, current)
      requires Trace() == before + EntryWrites(table, addressSpace, dumpStart)
      modifies this
      ensures Valid() && Trace() == before + EntryWrites(table, addressSpace, current)
    {
      hide FieldsFit, Encode, Prefix, EncodeAll, Events, EntryWrites, EntryBytes, Pad, PairWrites, Writes, Le64, DiscontiguousPrefix;
      ghost var data := EntryBytes(table, dumpStart, current);
      ghost var cmd := MemoryWriteDiscontiguous(hint, addressSpace, current - dumpStart, slots, data);
      EntrySlotsFit(table, slots, dumpStart, current, addressSpace, hint);
      PrefixIs(cmd);
      file := file + DiscontiguousPrefix(hint, addressSpace, current - dumpStart, slots, 190 + 2 * (current - dumpStart));
      DumpEntries(table, dumpStart, current);
      EncodeIs(cmd);
      AlignedNeedsNoPad(data);
      assert file == old(file) + Encode(cmd);
      Recorded(cmd);
      EntryPairs(table, slots, dumpStart, current, addressSpace, data, current - dumpStart);
      DiscontiguousWrites(cmd);
      assert before + EntryWrites(table, addressSpace, dumpStart) + Writes(cmd) == before + (EntryWrites(table, addressSpace, dumpStart) + Writes(cmd));
    }

    method DumpEntries(table: seq<TableEntry>, dumpStart: nat, current: nat)
      requires dumpStart <= current <= |table| && forall k :: 0 <= k < |table| ==> table[k].value < TWO_TO_64
      modifies this`file
      ensures file == old(file) + EntryBytes(table, dumpStart, current)
    {
      hide Le64;
      var dump := dumpStart;
      while dump != current
        invariant dumpStart <= dump <= current && file == old(file) + EntryBytes(table, dumpStart, dump)
        decreases current - dump
      {
        file := file + Le64(table[dump].value);
        dump := dump + 1;
      }
    }
  }

  function EntryBytes(table: seq<TableEntry>, start: nat, end: nat): (r: seq<Byte>)
    requires start <= end <= |table| && forall k :: 0 <= k < |table| ==> table[k].value < TWO_TO_64
    ensures |r| == 8 * (end - start)
    decreases end - start
  {
    if end == start then [] else EntryBytes(table, start, end - 1) + Le64(table[end - 1].value)
  }

  ghost predicate EntriesHeld(table: seq<TableEntry>, slots: seq<Pair>, dumpStart: nat, current: nat) {
    && dumpStart <= current <= |table| && current - dumpStart <= MAX_PAIRS == |slots|
    && (forall k :: 0 <= k < |table| ==> table[k].value < TWO_TO_64)
    && (forall k :: 0 <= k < |slots| ==> slots[k].address < TWO_TO_64 && slots[k].size < TWO_TO_32)
    && forall k :: 0 <= k < current - dumpStart ==> slots[k] == Pair(table[dumpStart + k].address, 8)
  }

  lemma {:induction false} EntrySum(table: seq<TableEntry>, slots: seq<Pair>, dumpStart: nat, current: nat, k: nat)
    requires EntriesHeld(table, slots, dumpStart, current) && k <= current - dumpStart
    ensures SumSizes(slots, k) == 8 * k
    decreases k
  {
    if k > 0 { EntrySum(table, slots, dumpStart, current, k - 1); }
  }

  lemma EntrySlotsFit(table: seq<TableEntry>, slots: seq<Pair>, dumpStart: nat, current: nat, space: nat, hint: nat)
    requires EntriesHeld(table, slots, dumpStart, current) && space < 16 && hint < 256
    ensures FieldsFit(MemoryWriteDiscontiguous(hint, space, current - dumpStart, slots, EntryBytes(table, dumpStart, current)))
  {
    hide EntryBytes;
    EntrySum(table, slots, dumpStart, current, current - dumpStart);
  }

  lemma {:induction false} EntryPairs(table: seq<TableEntry>, slots: seq<Pair>, dumpStart: nat, current: nat, space: nat, data: seq<Byte>, k: nat)
    requires EntriesHeld(table, slots, dumpStart, current) && k <= current - dumpStart && data == EntryBytes(table, dumpStart, current)
    ensures SumSizes(slots, k) <= |data|
    ensures EntryWrites(table, space, dumpStart) + PairWrites(space, slots, k, data) == EntryWrites(table, space, dumpStart + k)
    decreases k
  {
    hide Spread, Le64, EntryBytes, SumSizes;
    EntrySum(table, slots, dumpStart, current, k);
    if k > 0 {
      EntrySum(table, slots, dumpStart, current, k - 1);
      EntryPairs(table, slots, dumpStart, current, space, data, k - 1);
      BytesOfEntry(table, dumpStart, current, dumpStart + k - 1);
      var last := Spread(space, table[dumpStart + k - 1].address, Le64(table[dumpStart + k - 1].value));
      assert PairWrites(space, slots, k, data) == PairWrites(space, slots, k - 1, data) + last;
      assert EntryWrites(table, space, dumpStart + k) == EntryWrites(table, space, dumpStart + k - 1) + last;
    } else {
      assert EntryWrites(table, space, dumpStart) + [] == EntryWrites(table, space, dumpStart);
    }
  }

  lemma {:induction false} BytesOfEntry(table: seq<TableEntry>, start: nat, end: nat, k: nat)
    requires start <= k < end <= |table| && forall i :: 0 <= i < |table| ==> table[i].value < TWO_TO_64
    ensures EntryBytes(table, start, end)[8 * (k - start)..8 * (k - start) + 8] == Le64(table[k].value)
    decreases end - start
  {
    hide Le64;
    if k < end - 1 {
      BytesOfEntry(table, start, end - 1, k);
      var front := EntryBytes(table, start, end - 1);
      assert EntryBytes(table, start, end)[8 * (k - start)..8 * (k - start) + 8] == front[8 * (k - start)..8 * (k - start) + 8];
    }
  }

  lemma NoTableEntries(table: seq<TableEntry>, space: nat)
    requires forall k :: 0 <= k < |table| ==> table[k].value < TWO_TO_64
    ensures EntryWrites(table, space, 0) == []
  {
  }

  lemma OneTableEntry(table: seq<TableEntry>, space: nat)
    requires |table| == 1 && table[0].value < TWO_TO_64
    ensures EntryWrites(table, space, 1) == Spread(space, table[0].address, Le64(table[0].value))
  {
    hide Spread, Le64;
    assert EntryWrites(table, space, 0) == [];
  }

  lemma SlotAdded(table: seq<WalkModel.PageInfo>, slots: seq<Pair>, dumpStart: nat, current: nat, local: bool)
    requires SlotsHold(table, slots, dumpStart, current, local) && current < |table| && current - dumpStart < MAX_PAIRS
    requires table[current].local == local && table[current].size % 4 == 0
    requires table[current].phys < TWO_TO_64 && table[current].size < TWO_TO_32
    ensures SlotsHold(table, slots[current - dumpStart := Pair(table[current].phys, table[current].size)], dumpStart, current + 1, local)
  {
    var more := slots[current - dumpStart := Pair(table[current].phys, table[current].size)];
    forall k | 0 <= k < current + 1 - dumpStart ensures HoldsEntry(table, more, dumpStart, local, k) {
      if k < current - dumpStart { assert HoldsEntry(table, slots, dumpStart, local, k); }
    }
  }

  lemma NoEntries(table: seq<WalkModel.PageInfo>, memory: seq<Byte>)
    ensures PageWrites(table, memory, 0) == []
  {
  }

  lemma OneEntry(table: seq<WalkModel.PageInfo>, memory: seq<Byte>)
    requires |table| == 1 && |memory| == Offset(table, 1)
    ensures PageWrites(table, memory, 1) == Spread(MemorySpace(table[0].local), table[0].phys, memory)
  {
    hide Spread;
    assert memory[0..|memory|] == memory;
  }

  lemma FlushWrites(memory: seq<Byte>, table: seq<WalkModel.PageInfo>, local: bool, slots: seq<Pair>, dumpStart: nat, current: nat, cmd: Packet)
    requires SlotsHold(table, slots, dumpStart, current, local) && Offset(table, dumpStart) <= Offset(table, current) <= |memory|
    requires FieldsFit(cmd) && cmd.MemoryWriteDiscontiguous? && cmd.space == MemorySpace(local) && cmd.count == current - dumpStart
    requires cmd.slots == slots && cmd.data == memory[Offset(table, dumpStart)..Offset(table, current)]
    ensures PageWrites(table, memory, dumpStart) + Writes(cmd) == PageWrites(table, memory, current)
  {
    hide FieldsFit, PageWrites, PairWrites, SlotsHold, Offset, SumSizes;
    SlotBounds(table, slots, dumpStart, current, local);
    PairsAreEntries(table, memory, slots, dumpStart, current, local, cmd.data, current - dumpStart);
    DiscontiguousWrites(cmd);
  }

  /** The header of a discontiguous record with this length field. */
  function DiscontiguousPrefix(hint: nat, space: nat, count: nat, slots: seq<Pair>, dwordCount: nat): seq<Byte>
    requires hint < 256 && space < 16 && count < TWO_TO_16 && dwordCount < TWO_TO_16
    requires forall k :: 0 <= k < |slots| ==> slots[k].address < TWO_TO_64 && slots[k].size < TWO_TO_32
  {
    Le32(Header(dwordCount, MEMORY_WRITE_DISCONTIGUOUS)) + Le32(Flags(count, hint, space)) + Slots(slots)
  }

  lemma PrefixIs(p: Packet)
    requires FieldsFit(p) && p.MemoryWriteDiscontiguous?
    ensures |p.data| % 4 == 0 && Prefix(p) == DiscontiguousPrefix(p.hint, p.space, p.count, p.slots, 190 + |p.data| / 4)
  {
  }

  lemma SlotsFit(table: seq<WalkModel.PageInfo>, slots: seq<Pair>, dumpStart: nat, current: nat, local: bool, hint: nat, data: seq<Byte>)
    requires SlotsHold(table, slots, dumpStart, current, local) && hint < 256
    requires |data| == Offset(table, current) - Offset(table, dumpStart) && 190 + |data| / 4 < TWO_TO_16
    ensures FieldsFit(MemoryWriteDiscontiguous(hint, MemorySpace(local), current - dumpStart, slots, data))
    ensures forall k :: 0 <= k < |slots| ==> slots[k].address < TWO_TO_64 && slots[k].size < TWO_TO_32
  {
    SlotsSum(table, slots, dumpStart, current, local, current - dumpStart);
  }

  lemma DiscontiguousWrites(p: Packet)
    requires FieldsFit(p) && p.MemoryWriteDiscontiguous?
    ensures Writes(p) == PairWrites(p.space, p.slots, p.count, p.data)
  {
  }

  lemma EncodeIs(p: Packet)
    requires FieldsFit(p)
    ensures Encode(p) == Prefix(p) + Pad(p.data)
  {
    hide Prefix;
  }

  lemma ChunkFits(p: Packet)
    requires p.MemoryWrite? && p.address + |p.data| <= TWO_TO_64 && 0 < |p.data| <= (0xffff - 5) * 4 && p.space < 16 && p.hint < 256
    ensures FieldsFit(p)
  {
  }

  lemma CommentFits(p: Packet)
    requires p.Comment? && |p.data| % 4 == 0 && |p.data| <= (0xffff - 1) * 4
    ensures FieldsFit(p)
  {
  }

  lemma CommentWritesNothing(p: Packet)
    requires FieldsFit(p) && p.Comment?
    ensures Writes(p) == []
  {
  }

  lemma AlignedNeedsNoPad(data: seq<Byte>)
    ensures |data| % 4 == 0 ==> Pad(data) == data
  {
  }

  lemma PadSize(data: seq<Byte>)
    ensures |Pad(data)| % 4 == 0
    ensures |data| <= (0xffff - 1) * 4 ==> |Pad(data)| <= (0xffff - 1) * 4
  {
  }

  lemma PaddedAlready(data: seq<Byte>)
    ensures Pad(Pad(data)) == Pad(data)
  {
  }

  /** A cut that stops before the message's terminating zero is all text; the last one ends the message. */
  lemma CutOfMessage(message: seq<Byte>, cursor: nat, chunkBytes: nat)
    requires 0 !in message && cursor + chunkBytes <= |message| + 1 && chunkBytes > 0
    ensures var text := message + [0]; var chunk := text[cursor..cursor + chunkBytes];
      if cursor + chunkBytes <= |message| then
        (chunkBytes % 4 == 0 ==> Pad(chunk) == chunk && 0 !in chunk) && text[..cursor] + chunk == text[..cursor + chunkBytes]
      else 0 in Pad(chunk) && text[..cursor] + Text(Pad(chunk)) == message
  {
    hide Text;
    var text := message + [0];
    var chunk := text[cursor..cursor + chunkBytes];
    if cursor + chunkBytes <= |message| {
      assert chunk == message[cursor..cursor + chunkBytes];
    } else {
      var front := message[cursor..];
      assert chunk == front + [0] && Pad(chunk)[|front|] == 0;
      assert Pad(chunk) == front + [0] + Pad(chunk)[|front| + 1..];
      MessageReads(front, Pad(chunk)[|front| + 1..]);
      assert text[..cursor] + front == message;
    }
  }

  // ---- what a reader gets ----

  /** Replaying the file of any sequence of records gives their writes and messages in order. */
  lemma ReplayGivesTrace(records: seq<Packet>)
    requires forall p :: p in records ==> FieldsFit(p)
    ensures Replay(EncodeAll(records)) == Some((Events(records), Held(records)))
  {
    hide FieldsFit, EncodeAll, ReadAll, Events, Held;
    FileReads(records);
  }

  /** Between calls the file on disk replays to everything written and noted so far, in the order of the calls. */
  lemma FileReplays(stream: AubFileStream)
    requires stream.Valid()
    ensures Replay(stream.file) == Some((stream.Trace(), []))
  {
    hide FieldsFit, EncodeAll, Events, Held, Replay;
    ReplayGivesTrace(stream.records);
  }

  /** A message without zeros is read back whole, however it was padded. */
  lemma {:induction false} MessageReads(message: seq<Byte>, rest: seq<Byte>)
    requires 0 !in message
    ensures Text(message + [0] + rest) == message
    decreases |message|
  {
    if message != [] {
      assert (message + [0] + rest)[1..] == message[1..] + [0] + rest;
      MessageReads(message[1..], rest);
    }
  }
}
