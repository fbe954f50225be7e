/** The AUB file format: the bytes of three kinds of record, and a reader that splits a file back into records. */
module Packets {
  import opened Wrappers

  type Byte = x: nat | x < 256

  const TWO_TO_16: nat := 0x1_0000
  const TWO_TO_32: nat := 0x1_0000_0000
  const TWO_TO_64: nat := 0x1_0000_0000_0000_0000

  const MEMORY_WRITE: nat := 0x6
  const MEMORY_WRITE_DISCONTIGUOUS: nat := 0xb
  const COMMENT: nat := 0x8

  /** Address/data pairs a discontiguous record has room for. */
  const MAX_PAIRS: nat := 63

  datatype Pair = Pair(address: nat, size: nat)

  /** Data is kept without the padding to a dword; `slots` is the whole pair array, of which `count` are used. */
  datatype Packet =
    | MemoryWrite(address: nat, hint: nat, space: nat, data: seq<Byte>)
    | MemoryWriteDiscontiguous(hint: nat, space: nat, count: nat, slots: seq<Pair>, data: seq<Byte>)
    | Comment(data: seq<Byte>)

  function DwordsFor(bytes: nat): nat {
    (bytes + 3) / 4
  }

  /** The header's length field: dwords in the record, less one. */
  function DwordCount(p: Packet): nat {
    match p
    case MemoryWrite(_, _, _, data) => 4 + DwordsFor(|data|)
    case MemoryWriteDiscontiguous(_, _, _, _, data) => 190 + DwordsFor(|data|)
    case Comment(data) => 1 + DwordsFor(|data|)
  }

  function SumSizes(slots: seq<Pair>, count: nat): nat
    requires count <= |slots|
  {
    if count == 0 then 0 else SumSizes(slots, count - 1) + slots[count - 1].size
  }

  /** Every field holds its value. */
  predicate FieldsFit(p: Packet) {
    && DwordCount(p) < TWO_TO_16
    && match p
       case MemoryWrite(address, hint, space, data) => address < TWO_TO_64 && hint < 256 && space < 16
       case MemoryWriteDiscontiguous(hint, space, count, slots, data) =>
         && hint < 256 && space < 16 && count <= MAX_PAIRS == |slots|
         && (forall k :: 0 <= k < |slots| ==> slots[k].address < TWO_TO_64 && slots[k].size < TWO_TO_32)
         && |data| == SumSizes(slots, count) && |data| % 4 == 0
       case Comment(data) => |data| % 4 == 0
  }

  // ---- bytes ----

  function Le32(n: nat): (r: seq<Byte>)
    requires n < TWO_TO_32
    ensures |r| == 4
  {
    [n % 256, n / 0x100 % 256, n / 0x1_0000 % 256, n / 0x100_0000 % 256]
  }

  function Dword(bytes: seq<Byte>, at: nat): (r: nat)
    requires 4 * at + 4 <= |bytes|
  {
    var b0: nat, b1: nat, b2: nat, b3: nat := bytes[4 * at], bytes[4 * at + 1], bytes[4 * at + 2], bytes[4 * at + 3];
    b0 + b1 * 0x100 + b2 * 0x1_0000 + b3 * 0x100_0000
  }

  function Le64(n: nat): (r: seq<Byte>)
    requires n < TWO_TO_64
    ensures |r| == 8
  {
    Le32(n % TWO_TO_32) + Le32(n / TWO_TO_32)
  }

  function Qword(bytes: seq<Byte>, at: nat): nat
    requires 4 * at + 8 <= |bytes|
  {
    Dword(bytes, at) + Dword(bytes, at + 1) * TWO_TO_32
  }

  lemma Le32Reads(n: nat, before: seq<Byte>, after: seq<Byte>, at: nat)
    requires n < TWO_TO_32 && |before| == 4 * at
    ensures 4 * at + 4 <= |before + Le32(n) + after| && Dword(before + Le32(n) + after, at) == n
  {
    hide Le32, Dword;
    var all := before + Le32(n) + after;
    assert all[4 * at..4 * at + |Le32(n)|] == Le32(n);
    DwordIn(Le32(n), all, 0, at);
    Le32Value(n);
  }

  lemma Le32Value(n: nat)
    requires n < TWO_TO_32
    ensures Dword(Le32(n), 0) == n
  {
    assert n == n % 256 + n / 0x100 * 0x100;
    assert n / 0x100 == n / 0x100 % 256 + n / 0x1_0000 * 0x100;
    assert n / 0x1_0000 == n / 0x1_0000 % 256 + n / 0x100_0000 * 0x100;
  }

  lemma DwordIn(a: seq<Byte>, b: seq<Byte>, at: nat, shift: nat)
    requires 4 * at + 4 <= |a| && 4 * shift + |a| <= |b| && b[4 * shift..4 * shift + |a|] == a
    ensures Dword(b, shift + at) == Dword(a, at)
  {
    assert forall i :: 0 <= i < |a| ==> b[4 * shift + i] == a[i];
  }

  lemma Le64Reads(n: nat, before: seq<Byte>, after: seq<Byte>, at: nat)
    requires n < TWO_TO_64 && |before| == 4 * at
    ensures 4 * at + 8 <= |before + Le64(n) + after| && Qword(before + Le64(n) + after, at) == n
  {
    hide Dword, Le32;
    var low, high := Le32(n % TWO_TO_32), Le32(n / TWO_TO_32);
    Le32Reads(n % TWO_TO_32, before, high + after, at);
    Le32Reads(n / TWO_TO_32, before + low, after, at + 1);
    assert before + Le64(n) + after == before + low + (high + after);
    assert before + Le64(n) + after == (before + low) + high + after;
  }

  function Pad(data: seq<Byte>): (r: seq<Byte>)
    ensures |r| == 4 * DwordsFor(|data|) && data <= r
  {
    data + seq(4 * DwordsFor(|data|) - |data|, i => 0)
  }

  /** dwordCount in 16 bits, sub-opcode in 7, opcode 0x2e in 6, type 7 in 3. */
  function Header(dwordCount: nat, subOpcode: nat): (r: nat)
    requires dwordCount < TWO_TO_16 && subOpcode < 0x80
    ensures r < TWO_TO_32
  {
    dwordCount + subOpcode * 0x1_0000 + 0x2e * 0x80_0000 + 0x7 * 0x2000_0000
  }

  function Flags(pairs: nat, hint: nat, space: nat): (r: nat)
    requires pairs < TWO_TO_16 && hint < 256 && space < 16
    ensures r < TWO_TO_32
  {
    pairs * 0x10 + hint * 0x10_0000 + space * 0x1000_0000
  }

  function Slots(slots: seq<Pair>): (r: seq<Byte>)
    requires forall k :: 0 <= k < |slots| ==> slots[k].address < TWO_TO_64 && slots[k].size < TWO_TO_32
    ensures |r| == 12 * |slots|
  {
    if slots == [] then [] else Le64(slots[0].address) + Le32(slots[0].size) + Slots(slots[1..])
  }

  /** Everything before the data. */
  function Prefix(p: Packet): (r: seq<Byte>)
    requires FieldsFit(p)
    ensures |r| == 4 * (if p.MemoryWrite? then 5 else if p.Comment? then 2 else 191)
  {
    match p
    case MemoryWrite(address, hint, space, data) =>
      Le32(Header(DwordCount(p), MEMORY_WRITE)) + Le64(address) + Le32(Flags(0, hint, space)) + Le32(|data|)
    case MemoryWriteDiscontiguous(hint, space, count, slots, data) =>
      Le32(Header(DwordCount(p), MEMORY_WRITE_DISCONTIGUOUS)) + Le32(Flags(count, hint, space)) + Slots(slots)
    case Comment(data) =>
      Le32(Header(DwordCount(p), COMMENT)) + Le32(0)
  }

  function Encode(p: Packet): (r: seq<Byte>)
    requires FieldsFit(p)
    ensures |r| == 4 * (DwordCount(p) + 1)
  {
    Prefix(p) + Pad(p.data)
  }

  function EncodeAll(packets: seq<Packet>): seq<Byte>
    requires forall p :: p in packets ==> FieldsFit(p)
  {
    if packets == [] then [] else Encode(packets[0]) + EncodeAll(packets[1..])
  }

  // ---- reading ----

  function ReadSlots(bytes: seq<Byte>, at: nat, n: nat): seq<Pair>
    requires 4 * at + 12 * n <= |bytes|
    decreases n
  {
    if n == 0 then [] else [Pair(Qword(bytes, at), Dword(bytes, at + 2))] + ReadSlots(bytes, at + 3, n - 1)
  }

  /** One record, given exactly its bytes. */
  function Decode(bytes: seq<Byte>): Option<Packet>
    requires |bytes| >= 4
  {
    var header := Dword(bytes, 0);
    var subOpcode := header / 0x1_0000 % 0x80;
    if header / 0x80_0000 % 0x40 != 0x2e || header / 0x2000_0000 != 0x7 then None
    else if subOpcode == MEMORY_WRITE then
      if |bytes| < 20 then None
      else
        var flags, size := Dword(bytes, 3), Dword(bytes, 4);
        if 20 + size > |bytes| then None
        else Some(MemoryWrite(Qword(bytes, 1), flags / 0x10_0000 % 256, flags / 0x1000_0000 % 16, bytes[20..20 + size]))
    else if subOpcode == MEMORY_WRITE_DISCONTIGUOUS then
      if |bytes| < 764 then None
      else
        var flags := Dword(bytes, 1);
        Some(MemoryWriteDiscontiguous(flags / 0x10_0000 % 256, flags / 0x1000_0000 % 16, flags / 0x10 % 0x1_0000,
                                      ReadSlots(bytes, 2, MAX_PAIRS), bytes[764..]))
    else if subOpcode == COMMENT then
      if |bytes| < 8 then None else Some(Comment(bytes[8..]))
    else None
  }

  /** How many bytes the record at the start of a file takes: dwordCount + 1 dwords. */
  function RecordSize(file: seq<Byte>): nat
    requires |file| >= 4
  {
    4 * (Dword(file, 0) % TWO_TO_16 + 1)
  }

  /** Split a file into records by their length fields alone. */
  function ReadAll(file: seq<Byte>): Option<seq<Packet>>
    decreases |file|
  {
    if file == [] then Some([])
    else if |file| < 4 || |file| < RecordSize(file) then None
    else
      match Decode(file[..RecordSize(file)])
      case None => None
      case Some(p) =>
        match ReadAll(file[RecordSize(file)..])
        case None => None
        case Some(rest) => Some([p] + rest)
  }

  // ---- round trips ----

  lemma HeaderFields(dwordCount: nat, subOpcode: nat)
    requires dwordCount < TWO_TO_16 && subOpcode < 0x80
    ensures var h := Header(dwordCount, subOpcode);
      h % TWO_TO_16 == dwordCount && h / 0x1_0000 % 0x80 == subOpcode && h / 0x80_0000 % 0x40 == 0x2e && h / 0x2000_0000 == 0x7
  {
  }

  lemma FlagFields(pairs: nat, hint: nat, space: nat)
    requires pairs < TWO_TO_16 && hint < 256 && space < 16
    ensures var f := Flags(pairs, hint, space);
      f / 0x10 % 0x1_0000 == pairs && f / 0x10_0000 % 256 == hint && f / 0x1000_0000 % 16 == space
  {
  }

  lemma {:induction false} SlotsRead(slots: seq<Pair>, before: seq<Byte>, after: seq<Byte>, at: nat)
    requires forall k :: 0 <= k < |slots| ==> slots[k].address < TWO_TO_64 && slots[k].size < TWO_TO_32
    requires |before| == 4 * at
    ensures ReadSlots(before + Slots(slots) + after, at, |slots|) == slots
    decreases |slots|
  {
    hide Dword, Qword, Le32, Le64;
    var all := before + Slots(slots) + after;
    if slots != [] {
      var address, size, rest := Le64(slots[0].address), Le32(slots[0].size), Slots(slots[1..]);
      assert all == before + address + (size + rest + after);
      Le64Reads(slots[0].address, before, size + rest + after, at);
      assert all == (before + address) + size + (rest + after);
      Le32Reads(slots[0].size, before + address, rest + after, at + 2);
      assert all == (before + address + size) + rest + after;
      SlotsRead(slots[1..], before + address + size, after, at + 3);
    }
  }

  lemma HeaderReads(p: Packet, subOpcode: nat, after: seq<Byte>)
    requires FieldsFit(p) && subOpcode < 0x80
    ensures Dword(Le32(Header(DwordCount(p), subOpcode)) + after, 0) == Header(DwordCount(p), subOpcode)
  {
    hide Dword, Le32, Header;
    var h := Le32(Header(DwordCount(p), subOpcode));
    Le32Reads(Header(DwordCount(p), subOpcode), [], after, 0);
    assert [] + h + after == h + after;
  }

  lemma WriteReads(p: Packet)
    requires FieldsFit(p) && p.MemoryWrite?
    ensures Decode(Encode(p)) == Some(p)
  {
    hide Dword, Qword, Le32, Le64, Header, Flags;
    var head, address := Le32(Header(DwordCount(p), MEMORY_WRITE)), Le64(p.address);
    var flags, size := Le32(Flags(0, p.hint, p.space)), Le32(|p.data|);
    var data, all := Pad(p.data), Encode(p);
    assert all == head + (address + flags + size + data);
    HeaderReads(p, MEMORY_WRITE, address + flags + size + data);
    HeaderFields(DwordCount(p), MEMORY_WRITE);
    assert all == head + address + (flags + size + data);
    Le64Reads(p.address, head, flags + size + data, 1);
    assert all == (head + address) + flags + (size + data);
    Le32Reads(Flags(0, p.hint, p.space), head + address, size + data, 3);
    FlagFields(0, p.hint, p.space);
    assert all == (head + address + flags) + size + data;
    Le32Reads(|p.data|, head + address + flags, data, 4);
    assert all[20..20 + |p.data|] == p.data;
  }

  lemma DiscontiguousReads(p: Packet)
    requires FieldsFit(p) && p.MemoryWriteDiscontiguous?
    ensures Decode(Encode(p)) == Some(p)
  {
    hide Dword, Qword, Le32, Le64, Header, Flags, DwordCount, Slots, ReadSlots, SumSizes;
    var head, flags := Le32(Header(DwordCount(p), MEMORY_WRITE_DISCONTIGUOUS)), Le32(Flags(p.count, p.hint, p.space));
    var slots, data, all := Slots(p.slots), Pad(p.data), Encode(p);
    assert all == head + (flags + slots + data);
    HeaderReads(p, MEMORY_WRITE_DISCONTIGUOUS, flags + slots + data);
    HeaderFields(DwordCount(p), MEMORY_WRITE_DISCONTIGUOUS);
    assert all == head + flags + (slots + data);
    Le32Reads(Flags(p.count, p.hint, p.space), head, slots + data, 1);
    FlagFields(p.count, p.hint, p.space);
    assert all == (head + flags) + slots + data;
    SlotsRead(p.slots, head + flags, data, 2);
    assert all[764..] == p.data;
  }

  lemma CommentReads(p: Packet)
    requires FieldsFit(p) && p.Comment?
    ensures Decode(Encode(p)) == Some(p)
  {
    hide Dword, Le32, Header, DwordCount;
    var head, data, all := Le32(Header(DwordCount(p), COMMENT)), Pad(p.data), Encode(p);
    assert all == head + (Le32(0) + data);
    HeaderReads(p, COMMENT, Le32(0) + data);
    HeaderFields(DwordCount(p), COMMENT);
    assert all[8..] == p.data;
  }

  lemma RecordReads(p: Packet, rest: seq<Byte>)
    requires FieldsFit(p)
    ensures |Encode(p) + rest| >= 4 && RecordSize(Encode(p) + rest) == |Encode(p)|
    ensures Decode(Encode(p)) == Some(p)
  {
    hide Dword, Header, Decode, Le32, Le64, Flags, Slots, DwordCount, FieldsFit;
    var sub := if p.MemoryWrite? then MEMORY_WRITE else if p.Comment? then COMMENT else MEMORY_WRITE_DISCONTIGUOUS;
    StartsWithHeader(p, sub, rest);
    match p {
      case MemoryWrite(_, _, _, _) => WriteReads(p);
      case MemoryWriteDiscontiguous(_, _, _, _, _) => DiscontiguousReads(p);
      case Comment(_) => CommentReads(p);
    }
  }

  lemma StartsWithHeader(p: Packet, sub: nat, rest: seq<Byte>)
    requires FieldsFit(p)
    requires sub == if p.MemoryWrite? then MEMORY_WRITE else if p.Comment? then COMMENT else MEMORY_WRITE_DISCONTIGUOUS
    ensures |Encode(p) + rest| >= 4 && Dword(Encode(p) + rest, 0) % TWO_TO_16 == DwordCount(p)
  {
    hide Dword, Header, Le32, Le64, Flags, Slots, DwordCount;
    var head := Le32(Header(DwordCount(p), sub));
    var all := Encode(p) + rest;
    assert head <= all;
    assert all == head + all[4..];
    HeaderReads(p, sub, all[4..]);
    HeaderFields(DwordCount(p), sub);
  }

  /** A file of records splits back into exactly those records. */
  lemma {:induction false} FileReads(packets: seq<Packet>)
    requires forall p :: p in packets ==> FieldsFit(p)
    ensures ReadAll(EncodeAll(packets)) == Some(packets)
    decreases |packets|
  {
    hide Encode, FieldsFit, ReadAll, DwordCount;
    if packets == [] {
      NothingReads();
    } else {
      FileReads(packets[1..]);
      OneReads(packets[0], EncodeAll(packets[1..]));
      assert packets == [packets[0]] + packets[1..];
    }
  }

  lemma NothingReads()
    ensures ReadAll([]) == Some([])
  {
  }

  lemma OneReads(p: Packet, rest: seq<Byte>)
    requires FieldsFit(p) && ReadAll(rest).Some?
    ensures ReadAll(Encode(p) + rest) == Some([p] + ReadAll(rest).value)
  {
    hide Encode, Decode, FieldsFit, RecordSize, DwordCount;
    var first := Encode(p);
    RecordReads(p, rest);
    var file := first + rest;
    assert file[..|first|] == first && file[|first|..] == rest;
  }

  lemma {:induction false} EncodeAppend(packets: seq<Packet>, p: Packet)
    requires (forall q :: q in packets ==> FieldsFit(q)) && FieldsFit(p)
    ensures EncodeAll(packets + [p]) == EncodeAll(packets) + Encode(p)
    decreases |packets|
  {
    hide Encode, FieldsFit;
    if packets == [] {
      assert packets + [p] == [p] && [p][1..] == [];
    } else {
      assert (packets + [p])[1..] == packets[1..] + [p];
      EncodeAppend(packets[1..], p);
    }
  }
}
