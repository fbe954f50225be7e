/** The size-matching free list and bump pointer behind every physical address. */
module FrameAllocator {
  import opened Arithmetic

  datatype Block = Block(addr: nat, size: nat)

  /** `nextAddress` and the two multimaps, each in key order. */
  datatype Arena = Arena(next: nat, used: seq<Block>, free: seq<Block>)

  /** Multimap insertion: a new entry goes after the entries with an equal key. */
  function Insert(s: seq<Block>, b: Block): seq<Block> {
    if s == [] then [b]
    else if b.addr < s[0].addr then [b] + s
    else [s[0]] + Insert(s[1..], b)
  }

  function Remove(s: seq<Block>, i: nat): seq<Block>
    requires i < |s|
  {
    s[..i] + s[i + 1..]
  }

  /** The first block of exactly this size, or |s|. */
  function FindSize(s: seq<Block>, size: nat): (i: nat)
    ensures i <= |s|
    ensures i < |s| ==> s[i].size == size
    ensures forall j :: 0 <= j < i ==> s[j].size != size
  {
    if s == [] then 0 else if s[0].size == size then 0 else 1 + FindSize(s[1..], size)
  }

  /** The first block with this key, or |s|. */
  function FindAddress(s: seq<Block>, addr: nat): (i: nat)
    ensures i <= |s|
    ensures i < |s| ==> s[i].addr == addr
    ensures forall j :: 0 <= j < i ==> s[j].addr != addr
  {
    if s == [] then 0 else if s[0].addr == addr then 0 else 1 + FindAddress(s[1..], addr)
  }

  /** Where a fresh block starts. */
  function BumpAddress(a: Arena, alignment: nat): nat {
    RoundUp(a.next, Max(alignment, PAGE_4KB))
  }

  /** What an allocation does to the state, and the block it hands out. */
  function Alloc(a: Arena, size: nat, alignment: nat): (Arena, Block) {
    var i := FindSize(a.free, size);
    if i < |a.free| then
      (Arena(a.next, Insert(a.used, a.free[i]), Remove(a.free, i)), a.free[i])
    else
      var b := Block(BumpAddress(a, alignment), size);
      (Arena(b.addr + size, Insert(a.used, b), a.free), b)
  }

  /** Releasing an address that is no key of the used map changes nothing. */
  function Release(a: Arena, addr: nat): Arena {
    var i := FindAddress(a.used, addr);
    if i < |a.used| then Arena(a.next, Remove(a.used, i), Insert(a.free, a.used[i])) else a
  }

  ghost function Blocks(a: Arena): multiset<Block> {
    multiset(a.used) + multiset(a.free)
  }

  ghost predicate Disjoint(b: Block, c: Block) {
    b.addr + b.size <= c.addr || c.addr + c.size <= b.addr
  }

  /** Blocks are non-empty, below the bump pointer, at or above `first`, never recorded twice and never overlapping. */
  ghost predicate Valid(a: Arena, first: nat) {
    && first <= a.next
    && (forall b :: b in Blocks(a) ==> Blocks(a)[b] == 1 && b.size > 0 && first <= b.addr && b.addr + b.size <= a.next)
    && (forall b, c :: b in Blocks(a) && c in Blocks(a) && b != c ==> Disjoint(b, c))
  }

  ghost predicate Aligned(a: Arena) {
    forall b :: b in Blocks(a) && b.size > 0 ==> b.addr % b.size == 0
  }

  lemma InsertContents(s: seq<Block>, b: Block)
    ensures multiset(Insert(s, b)) == multiset(s) + multiset{b}
  {
    if s != [] && b.addr >= s[0].addr {
      InsertContents(s[1..], b);
      assert s == [s[0]] + s[1..];
    }
  }

  lemma RemoveContents(s: seq<Block>, i: nat)
    requires i < |s|
    ensures multiset(Remove(s, i)) == multiset(s) - multiset{s[i]}
  {
    assert s == s[..i] + [s[i]] + s[i + 1..];
  }

  ghost predicate SortedByAddress(s: seq<Block>) {
    forall i, j :: 0 <= i < j < |s| ==> s[i].addr <= s[j].addr
  }

  lemma {:induction false} InsertKeepsOrder(s: seq<Block>, b: Block)
    requires SortedByAddress(s)
    ensures SortedByAddress(Insert(s, b))
  {
    if s != [] && b.addr >= s[0].addr {
      InsertKeepsOrder(s[1..], b);
      InsertContents(s[1..], b);
      forall c | c in Insert(s[1..], b) ensures s[0].addr <= c.addr {
        assert c in multiset(Insert(s[1..], b));
      }
    }
  }

  /** Conservation: an allocation keeps every block, and adds one fresh block exactly when no free block has the size. */
  lemma AllocConserves(a: Arena, size: nat, alignment: nat)
    ensures var (a', b) := Alloc(a, size, alignment);
      && b.size == size && b in a'.used
      && multiset(a'.used) == multiset(a.used) + multiset{b}
      && (if exists f :: f in a.free && f.size == size
          then Blocks(a') == Blocks(a) && a'.next == a.next && b in a.free
          else Blocks(a') == Blocks(a) + multiset{b} && a.next <= b.addr && a'.next == b.addr + size && a'.free == a.free)
  {
    hide Insert, Remove, RoundUp;
    var i := FindSize(a.free, size);
    if i < |a.free| {
      InsertContents(a.used, a.free[i]);
      RemoveContents(a.free, i);
      assert a.free[i] in a.free;
    } else {
      RoundUpBounds(a.next, Max(alignment, PAGE_4KB));
      InsertContents(a.used, Block(BumpAddress(a, alignment), size));
    }
    var (a', b) := Alloc(a, size, alignment);
    assert b in multiset(a'.used);
  }

  lemma AllocKeepsValid(a: Arena, first: nat, size: nat, alignment: nat)
    requires Valid(a, first) && size > 0
    ensures var (a', b) := Alloc(a, size, alignment);
      && Valid(a', first)
      && a.next <= a'.next
      && (forall c :: c in a.used ==> Disjoint(b, c))
  {
    AllocConserves(a, size, alignment);
    var (a', b) := Alloc(a, size, alignment);
    if exists f :: f in a.free && f.size == size {
      assert b in multiset(a.free);
      UsedAndFreeDisjoint(a, first, b);
    } else {
      FreshBlockKeepsValid(a, a', first, b);
    }
  }

  /** Everything a request promises, in one place. */
  lemma AllocFacts(a: Arena, first: nat, size: nat, alignment: nat)
    requires Valid(a, first) && size > 0
    ensures var (a', b) := Alloc(a, size, alignment);
      && Valid(a', first) && a.next <= a'.next && b.size == size
      && (forall c :: c in a'.used <==> c in a.used || c == b)
      && (forall c :: c in a'.free ==> c in a.free)
      && (forall c :: c in a.used ==> Disjoint(b, c))
  {
    AllocKeepsValid(a, first, size, alignment);
    AllocConserves(a, size, alignment);
    var (a', b) := Alloc(a, size, alignment);
    forall c ensures c in a'.used <==> c in a.used || c == b {
      assert c in a'.used <==> c in multiset(a'.used);
      assert c in a.used <==> c in multiset(a.used);
    }
  }

  lemma UsedAndFreeDisjoint(a: Arena, first: nat, b: Block)
    requires Valid(a, first) && b in a.free
    ensures forall c :: c in a.used ==> Disjoint(b, c)
  {
    assert b in multiset(a.free) && b in Blocks(a);
    forall c | c in a.used ensures Disjoint(b, c) {
      assert c in multiset(a.used) && c in Blocks(a);
      assert multiset(a.used)[c] > 0 && multiset(a.free)[b] > 0;
    }
  }

  lemma FreshBlockKeepsValid(a: Arena, a': Arena, first: nat, b: Block)
    requires Valid(a, first) && b.size > 0 && a.next <= b.addr && a'.next == b.addr + b.size
    requires Blocks(a') == Blocks(a) + multiset{b}
    ensures Valid(a', first)
    ensures forall c :: c in a.used ==> Disjoint(b, c)
  {
    assert b !in Blocks(a);
    forall c | c in a.used ensures Disjoint(b, c) {
      assert c in multiset(a.used) && c in Blocks(a);
    }
  }

  lemma ReleaseConserves(a: Arena, addr: nat)
    ensures Blocks(Release(a, addr)) == Blocks(a)
    ensures forall b :: b in a.used && b.addr != addr ==> b in Release(a, addr).used
    ensures forall b :: b in Release(a, addr).used ==> b in a.used
  {
    hide Insert, Remove;
    var i := FindAddress(a.used, addr);
    if i < |a.used| {
      RemoveContents(a.used, i);
      InsertContents(a.free, a.used[i]);
      forall b | b in a.used && b.addr != addr ensures b in Remove(a.used, i) {
        assert b in multiset(a.used);
        assert b in multiset(Remove(a.used, i));
      }
      forall b | b in Remove(a.used, i) ensures b in a.used {
        assert b in multiset(Remove(a.used, i));
        assert b in multiset(a.used);
      }
    }
  }

  /** Freeing the address of a live block moves exactly that block to the free list. */
  lemma ReleaseReturnsBlock(a: Arena, first: nat, b: Block)
    requires Valid(a, first) && b in a.used
    ensures Valid(Release(a, b.addr), first)
    ensures multiset(Release(a, b.addr).used) == multiset(a.used) - multiset{b}
    ensures multiset(Release(a, b.addr).free) == multiset(a.free) + multiset{b}
    ensures Release(a, b.addr).next == a.next
  {
    hide Insert, Remove;
    var i := FindAddress(a.used, b.addr);
    assert b in multiset(a.used) && b in Blocks(a);
    if i < |a.used| {
      var c := a.used[i];
      assert c in multiset(a.used) && c in Blocks(a);
      RemoveContents(a.used, i);
      InsertContents(a.free, c);
      SameAddressSameBlock(a, first, b, c);
    }
    ReleaseConserves(a, b.addr);
  }

  lemma SameAddressSameBlock(a: Arena, first: nat, b: Block, c: Block)
    requires Valid(a, first) && b in Blocks(a) && c in Blocks(a) && b.addr == c.addr
    ensures b == c
  {
    hide Blocks;
  }

  /** Everything freeing an address promises: the block there, if one is in use, becomes free, and nothing else changes. */
  lemma ReleaseFacts(a: Arena, first: nat, addr: nat)
    requires Valid(a, first)
    ensures var a' := Release(a, addr);
      && Valid(a', first) && a'.next == a.next
      && (forall c :: c in a'.used <==> c in a.used && c.addr != addr)
      && (forall c :: c in a'.free <==> c in a.free || (c in a.used && c.addr == addr))
  {
    hide Insert, Remove, FindAddress;
    var i := FindAddress(a.used, addr);
    var a' := Release(a, addr);
    ReleaseConserves(a, addr);
    if i < |a.used| {
      var b := a.used[i];
      assert b in a.used && b.addr == addr;
      ReleaseReturnsBlock(a, first, b);
      UsedOnce(a, first, b);
      forall c ensures (c in a'.used <==> c in a.used && c.addr != addr) && (c in a'.free <==> c in a.free || (c in a.used && c.addr == addr)) {
        InSequences(a, a', c);
        if c in a.used && c.addr == addr { UsedAreBlocks(a, b); UsedAreBlocks(a, c); SameAddressSameBlock(a, first, b, c); }
      }
    }
  }

  lemma InSequences(a: Arena, a': Arena, c: Block)
    ensures (c in a.used <==> c in multiset(a.used)) && (c in a'.used <==> c in multiset(a'.used))
    ensures (c in a.free <==> c in multiset(a.free)) && (c in a'.free <==> c in multiset(a'.free))
  {
  }

  lemma UsedAreBlocks(a: Arena, b: Block)
    requires b in a.used
    ensures b in Blocks(a)
  {
    assert b in multiset(a.used);
  }

  lemma UsedOnce(a: Arena, first: nat, b: Block)
    requires Valid(a, first) && b in a.used
    ensures multiset(a.used)[b] == 1 && multiset(a.free)[b] == 0
  {
    assert b in multiset(a.used) && b in Blocks(a);
  }

  lemma UsedDisjoint(a: Arena, first: nat, b: Block, c: Block)
    requires Valid(a, first) && b in a.used && c in a.used
    ensures first <= b.addr && b.addr + b.size <= a.next && b.size > 0
    ensures b != c ==> Disjoint(b, c)
  {
    assert b in multiset(a.used) && b in Blocks(a);
    assert c in multiset(a.used) && c in Blocks(a);
  }

  /** With alignment equal to size, reuse cannot lose alignment although it never looks at it. */
  lemma AllocKeepsAligned(a: Arena, size: nat)
    requires Aligned(a) && size >= PAGE_4KB
    ensures var (a', b) := Alloc(a, size, size); Aligned(a') && b.addr % size == 0
  {
    AllocConserves(a, size, size);
    var (a', b) := Alloc(a, size, size);
    if b in a.free {
      assert b in multiset(a.free) && b in Blocks(a);
    } else {
      RoundUpBounds(a.next, size);
    }
  }

  /** A request whose alignment exceeds its size can get back a block that is not aligned to it. */
  lemma ReuseIgnoresAlignment()
    ensures var a := Arena(0x3000, [], [Block(0x1000, 0x1000)]);
      && Valid(a, 0)
      && Alloc(a, 0x1000, 0x1_0000).1.addr % 0x1_0000 != 0
  {
    var a := Arena(0x3000, [], [Block(0x1000, 0x1000)]);
    assert Blocks(a) == multiset{Block(0x1000, 0x1000)};
    assert FindSize(a.free, 0x1000) == 0;
  }

  datatype Demand = Acquire(size: nat, alignment: nat) | GiveBack(addr: nat)

  function Answer(a: Arena, r: Demand): Arena {
    match r
    case Acquire(size, alignment) => Alloc(a, size, alignment).0
    case GiveBack(addr) => Release(a, addr)
  }

  function AnswerAll(a: Arena, rs: seq<Demand>): Arena
    decreases |rs|
  {
    if rs == [] then a else AnswerAll(Answer(a, rs[0]), rs[1..])
  }

  lemma AnswerKeepsValid(a: Arena, first: nat, r: Demand)
    requires Valid(a, first)
    requires r.Acquire? ==> r.size > 0
    ensures Valid(Answer(a, r), first)
    ensures Blocks(a) <= Blocks(Answer(a, r))
    ensures (r.Acquire? ==> r.alignment == r.size >= PAGE_4KB) && Aligned(a) ==> Aligned(Answer(a, r))
  {
    match r {
      case Acquire(size, alignment) =>
        AllocKeepsValid(a, first, size, alignment);
        AllocConserves(a, size, alignment);
        if Aligned(a) && alignment == size >= PAGE_4KB { AllocKeepsAligned(a, size); }
      case GiveBack(addr) =>
        ReleaseConserves(a, addr);
        assert Answer(a, r).next == a.next;
    }
  }

  /** Every history of requests with positive sizes keeps the blocks pairwise disjoint, and only ever adds blocks. */
  lemma {:induction false} HistoryKeepsValid(a: Arena, first: nat, rs: seq<Demand>)
    requires Valid(a, first)
    requires forall r :: r in rs && r.Acquire? ==> r.size > 0
    ensures Valid(AnswerAll(a, rs), first)
    ensures Blocks(a) <= Blocks(AnswerAll(a, rs))
    ensures (forall r :: r in rs && r.Acquire? ==> r.alignment == r.size >= PAGE_4KB) && Aligned(a) ==> Aligned(AnswerAll(a, rs))
    decreases |rs|
  {
    if rs != [] {
      assert rs[0] in rs;
      AnswerKeepsValid(a, first, rs[0]);
      HistoryKeepsValid(Answer(a, rs[0]), first, rs[1..]);
    }
  }

  // ---- alignment ----

  /** The alignment the allocator works with. */
  function Unit(alignment: nat): (r: nat)
    ensures r >= PAGE_4KB && r >= alignment
  {
    Max(alignment, PAGE_4KB)
  }

  predicate Fits(b: Block, alignment: nat) {
    b.addr % Unit(alignment) == 0
  }

  /** What is handed out fits its request exactly when no free block has the size, or the first that does fits. */
  lemma AllocFitsExactly(a: Arena, size: nat, alignment: nat)
    ensures var i := FindSize(a.free, size);
      Fits(Alloc(a, size, alignment).1, alignment) <==> i == |a.free| || Fits(a.free[i], alignment)
  {
    hide RoundUp;
    RoundUpBounds(a.next, Unit(alignment));
  }

  /** Requests that always ask for the same alignment for the same size, as page tables and the manager do. */
  predicate Policy(rs: seq<Demand>, alignmentOf: nat -> nat) {
    forall r :: r in rs && r.Acquire? ==> r.size > 0 && r.alignment == alignmentOf(r.size)
  }

  /** Every answer of a history fits its request. */
  predicate AnswersFit(a: Arena, rs: seq<Demand>)
    decreases |rs|
  {
    rs == []
    || ((rs[0].Acquire? ==> Fits(Alloc(a, rs[0].size, rs[0].alignment).1, rs[0].alignment)) && AnswersFit(Answer(a, rs[0]), rs[1..]))
  }

  ghost predicate AllFit(a: Arena, alignmentOf: nat -> nat) {
    forall b :: b in Blocks(a) ==> Fits(b, alignmentOf(b.size))
  }

  lemma AnswerKeepsFit(a: Arena, first: nat, r: Demand, alignmentOf: nat -> nat)
    requires Valid(a, first) && AllFit(a, alignmentOf) && Policy([r], alignmentOf)
    ensures AllFit(Answer(a, r), alignmentOf) && Valid(Answer(a, r), first)
    ensures r.Acquire? ==> Fits(Alloc(a, r.size, r.alignment).1, r.alignment)
  {
    hide Fits, Insert, Remove;
    assert r in [r];
    AnswerKeepsValid(a, first, r);
    match r {
      case Acquire(size, alignment) =>
        AllocConserves(a, size, alignment);
        AllocFitsExactly(a, size, alignment);
        var i := FindSize(a.free, size);
        if i < |a.free| { assert a.free[i] in multiset(a.free) && a.free[i] in Blocks(a); }
      case GiveBack(addr) => ReleaseConserves(a, addr);
    }
  }

  lemma {:induction false} FitStays(a: Arena, first: nat, rs: seq<Demand>, alignmentOf: nat -> nat)
    requires Valid(a, first) && AllFit(a, alignmentOf) && Policy(rs, alignmentOf)
    ensures AnswersFit(a, rs)
    decreases |rs|
  {
    hide Fits, AllFit, Answer, Valid;
    if rs != [] {
      assert forall r :: r in [rs[0]] ==> r in rs;
      assert forall r :: r in rs[1..] ==> r in rs;
      AnswerKeepsFit(a, first, rs[0], alignmentOf);
      FitStays(Answer(a, rs[0]), first, rs[1..], alignmentOf);
    }
  }

  /** Asking for its size again and again brings out a free block that does not fit. */
  lemma {:induction false} BlockComesOut(a: Arena, b: Block, alignmentOf: nat -> nat) returns (rs: seq<Demand>)
    requires b in a.free && b.size > 0 && !Fits(b, alignmentOf(b.size))
    ensures Policy(rs, alignmentOf) && !AnswersFit(a, rs)
    decreases |a.free|
  {
    hide Fits, Insert;
    var r := Acquire(b.size, alignmentOf(b.size));
    var i := FindSize(a.free, b.size);
    AllocFitsExactly(a, b.size, alignmentOf(b.size));
    if i < |a.free| && Fits(a.free[i], alignmentOf(b.size)) {
      var a' := Answer(a, r);
      RemoveContents(a.free, i);
      assert b in multiset(a.free) && b in multiset(a'.free);
      var later := BlockComesOut(a', b, alignmentOf);
      rs := [r] + later;
      assert rs[1..] == later;
    } else {
      rs := [r];
    }
  }

  /** An allocator answers every history of a policy with blocks that fit if and only if all its blocks, free or in use, fit now. */
  lemma HistoriesFitExactly(a: Arena, first: nat, alignmentOf: nat -> nat)
    requires Valid(a, first)
    ensures (forall rs :: Policy(rs, alignmentOf) ==> AnswersFit(a, rs)) <==> AllFit(a, alignmentOf)
  {
    hide Fits, Policy, AnswersFit, Valid;
    if AllFit(a, alignmentOf) {
      forall rs | Policy(rs, alignmentOf) ensures AnswersFit(a, rs) { FitStays(a, first, rs, alignmentOf); }
    } else {
      var b :| b in Blocks(a) && !Fits(b, alignmentOf(b.size));
      var rs := SomeHistoryMisfits(a, first, b, alignmentOf);
    }
  }

  lemma SomeHistoryMisfits(a: Arena, first: nat, b: Block, alignmentOf: nat -> nat) returns (rs: seq<Demand>)
    requires Valid(a, first) && b in Blocks(a) && !Fits(b, alignmentOf(b.size))
    ensures Policy(rs, alignmentOf) && !AnswersFit(a, rs)
  {
    hide Fits, Policy, AnswersFit, Release;
    assert b.size > 0;
    if b in a.free {
      rs := BlockComesOut(a, b, alignmentOf);
    } else {
      assert b in multiset(a.used);
      hide Valid, Blocks;
      ReleaseFacts(a, first, b.addr);
      var later := BlockComesOut(Release(a, b.addr), b, alignmentOf);
      ThenGivenBack(a, b.addr, later, alignmentOf);
      rs := [GiveBack(b.addr)] + later;
    }
  }

  lemma ThenGivenBack(a: Arena, addr: nat, rs: seq<Demand>, alignmentOf: nat -> nat)
    requires Policy(rs, alignmentOf) && !AnswersFit(Release(a, addr), rs)
    ensures Policy([GiveBack(addr)] + rs, alignmentOf) && !AnswersFit(a, [GiveBack(addr)] + rs)
  {
    hide Fits;
    assert ([GiveBack(addr)] + rs)[1..] == rs;
  }

  /** Blocks start on 4KB boundaries. */
  ghost predicate OnPages(a: Arena) {
    forall b :: b in Blocks(a) ==> b.addr % PAGE_4KB == 0
  }

  lemma AllocOnPages(a: Arena, size: nat, alignment: nat)
    requires OnPages(a) && (alignment <= PAGE_4KB || alignment % PAGE_4KB == 0)
    ensures OnPages(Alloc(a, size, alignment).0) && Alloc(a, size, alignment).1.addr % PAGE_4KB == 0
  {
    hide RoundUp, Insert, Remove;
    AllocConserves(a, size, alignment);
    var b := Alloc(a, size, alignment).1;
    if b in a.free {
      assert b in multiset(a.free) && b in Blocks(a);
    } else {
      RoundUpBounds(a.next, Unit(alignment));
      MultipleOfMultiple(BumpAddress(a, alignment), Unit(alignment), PAGE_4KB);
    }
  }

  lemma ReleaseOnPages(a: Arena, addr: nat)
    requires OnPages(a)
    ensures OnPages(Release(a, addr))
  {
    hide Release;
    ReleaseConserves(a, addr);
  }

  /** A free block of a large page's size starts on a multiple of it. */
  predicate PageAligned(b: Block) {
    b.size == PAGE_64KB || b.size == PAGE_2MB ==> b.addr % b.size == 0
  }

  ghost predicate FreeAligned(a: Arena) {
    forall b :: b in a.free ==> PageAligned(b)
  }

  lemma AllocPageAligned(a: Arena, size: nat)
    requires OnPages(a) && FreeAligned(a) && (size == PAGE_4KB || size == PAGE_64KB || size == PAGE_2MB)
    ensures Alloc(a, size, size).1.addr % size == 0
  {
    hide RoundUp, Insert, Remove;
    AllocFitsExactly(a, size, size);
    var i := FindSize(a.free, size);
    if i < |a.free| {
      assert a.free[i] in a.free && a.free[i] in multiset(a.free) && a.free[i] in Blocks(a);
    }
  }

  class SimpleAllocator {
    var nextAddress: nat
    var usedAllocations: seq<Block>
    var freeAllocations: seq<Block>

    ghost function State(): Arena
      reads this
    {
      Arena(nextAddress, usedAllocations, freeAllocations)
    }

    constructor (firstAddress: nat)
      ensures State() == Arena(firstAddress, [], [])
    {
      nextAddress := firstAddress;
      usedAllocations := [];
      freeAllocations := [];
    }

    method AlignedAlloc(size: nat, alignment: nat) returns (address: nat)
      modifies this
      ensures State() == Alloc(old(State()), size, alignment).0
      ensures address == Alloc(old(State()), size, alignment).1.addr
    {
      var i := 0;
      while i < |freeAllocations| && freeAllocations[i].size != size
        invariant i <= |freeAllocations|
        invariant forall j :: 0 <= j < i ==> freeAllocations[j].size != size
      {
        i := i + 1;
      }
      assert i == FindSize(freeAllocations, size);
      if i < |freeAllocations| {
        var block := freeAllocations[i];
        usedAllocations := Insert(usedAllocations, block);
        freeAllocations := Remove(freeAllocations, i);
        return block.addr;
      }
      var unit := Max(alignment, PAGE_4KB);
      nextAddress := nextAddress + (unit - 1);
      nextAddress := RoundDown(nextAddress, unit);
      address := nextAddress;
      nextAddress := nextAddress + size;
      usedAllocations := Insert(usedAllocations, Block(address, size));
    }

    method AlignedFree(address: nat)
      modifies this
      ensures State() == Release(old(State()), address)
    {
      var i := 0;
      while i < |usedAllocations| && usedAllocations[i].addr != address
        invariant i <= |usedAllocations|
        invariant forall j :: 0 <= j < i ==> usedAllocations[j].addr != address
      {
        i := i + 1;
      }
      assert i == FindAddress(usedAllocations, address);
      if i < |usedAllocations| {
        freeAllocations := Insert(freeAllocations, usedAllocations[i]);
        usedAllocations := Remove(usedAllocations, i);
      }
    }
  }
}
