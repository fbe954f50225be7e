/** The global table: one flat level of 4KB entries, filled in steps of whole pages. */
module Ggtt {
  import opened Wrappers
  import opened Arithmetic
  import opened FrameAllocator
  import opened PhysicalMemory
  import opened PageTables
  import opened WalkModel
  import opened WalkLookup

  /** Slot number (address / 4KB) to frame address. */
  type Gtt = map<nat, nat>

  /** The table, the memory behind it, and the slot numbers and frames queued for the stream. */
  datatype GttState = GttState(table: Gtt, mem: Physical, queued: seq<(nat, nat)>)

  function GttTranslate(gtt: Gtt, va: nat): Option<nat> {
    if va / PAGE_4KB in gtt then Some(gtt[va / PAGE_4KB] + va % PAGE_4KB) else None
  }

  /** Pages the walk is used with. */
  predicate GttPage(pageSize: nat) {
    pageSize == PAGE_4KB || pageSize == PAGE_64KB
  }

  function FirstSlot(va: nat, pageSize: nat): nat
    requires pageSize > 0
  {
    RoundDown(va, pageSize) / PAGE_4KB
  }

  /** The entries of one page, from its first slot. */
  function FillPage(gtt: Gtt, first: nat, phys: nat, count: nat): Gtt
    decreases count
  {
    if count == 0 then gtt else FillPage(gtt[first := phys], first + 1, phys + PAGE_4KB, count - 1)
  }

  function PageEntries(first: nat, phys: nat, count: nat): seq<(nat, nat)> {
    seq(count, k requires 0 <= k < count => (first + k, phys + k * PAGE_4KB))
  }

  /** A page of its own for the address. */
  function AddPage(s: GttState, bank: nat, va: nat, pageSize: nat): GttState
    requires pageSize > 0
  {
    var (mem, phys) := PhysicalMemory.Reserve(s.mem, bank, pageSize, pageSize);
    var first := FirstSlot(va, pageSize);
    GttState(FillPage(s.table, first, phys, pageSize / PAGE_4KB), mem, s.queued + PageEntries(first, phys, pageSize / PAGE_4KB))
  }

  lemma {:induction false} FillPageAt(gtt: Gtt, first: nat, phys: nat, count: nat, n: nat)
    ensures var r := FillPage(gtt, first, phys, count);
      if first <= n < first + count then n in r && r[n] == phys + (n - first) * PAGE_4KB
      else (n in r <==> n in gtt) && (n in gtt ==> r[n] == gtt[n])
    decreases count
  {
    if count > 0 { FillPageAt(gtt[first := phys], first + 1, phys + PAGE_4KB, count - 1, n); }
  }

  lemma AddedPagePresent(s: GttState, bank: nat, va: nat, pageSize: nat)
    requires GttPage(pageSize)
    ensures FirstSlot(va, pageSize) in AddPage(s, bank, va, pageSize).table
  {
    hide PhysicalMemory.Reserve, FirstSlot;
    FillPageAt(s.table, FirstSlot(va, pageSize), PhysicalMemory.Reserve(s.mem, bank, pageSize, pageSize).1, pageSize / PAGE_4KB, FirstSlot(va, pageSize));
  }

  /** The state before the page of this address is looked at, with the page made if it is missing. */
  function WithPage(s: GttState, bank: nat, va: nat, pageSize: nat): (r: GttState)
    requires GttPage(pageSize)
    ensures FirstSlot(va, pageSize) in r.table
  {
    AddedPagePresent(s, bank, va, pageSize);
    if FirstSlot(va, pageSize) in s.table then s else AddPage(s, bank, va, pageSize)
  }

  /** walkMemory on the global table: missing pages are made, or end an Expect walk. */
  function GttWalk(s: GttState, bank: nat, va: nat, size: nat, pageSize: nat, lookOnly: bool): (GttState, seq<Run>, bool)
    requires GttPage(pageSize)
    decreases size
  {
    if size == 0 then (s, [], true)
    else if FirstSlot(va, pageSize) !in s.table && lookOnly then (s, [], false)
    else
      var s1 := WithPage(s, bank, va, pageSize);
      var step := PageStep(pageSize, va, size);
      var (r, runs, done) := GttWalk(s1, bank, va + step, size - step, pageSize, lookOnly);
      (r, [Run(s1.table[FirstSlot(va, pageSize)] + va % pageSize, step, bank != 0)] + runs, done)
  }

  /** One turn of the loop, as an equation. */
  lemma GttTurn(s: GttState, bank: nat, va: nat, size: nat, pageSize: nat, lookOnly: bool)
    requires GttPage(pageSize) && size > 0
    ensures if FirstSlot(va, pageSize) !in s.table && lookOnly then GttWalk(s, bank, va, size, pageSize, lookOnly) == (s, [], false)
      else
        var s1 := WithPage(s, bank, va, pageSize);
        var step := PageStep(pageSize, va, size);
        var (r, runs, done) := GttWalk(s1, bank, va + step, size - step, pageSize, lookOnly);
        && 0 < step <= size
        && GttWalk(s, bank, va, size, pageSize, lookOnly)
           == (r, [Run(s1.table[FirstSlot(va, pageSize)] + va % pageSize, step, bank != 0)] + runs, done)
  {
    hide WithPage, FirstSlot;
  }

  lemma GttNothing(s: GttState, bank: nat, va: nat, pageSize: nat, lookOnly: bool)
    requires GttPage(pageSize)
    ensures GttWalk(s, bank, va, 0, pageSize, lookOnly) == (s, [], true)
  {
  }

  // ---- the stream ----

  /** The table a reader of the queued entries ends up with. */
  function Replayed(gtt: Gtt, queued: seq<(nat, nat)>): Gtt
    decreases |queued|
  {
    if queued == [] then gtt else Replayed(gtt[queued[0].0 := queued[0].1], queued[1..])
  }

  lemma {:induction false} ReplayAppend(gtt: Gtt, a: seq<(nat, nat)>, b: seq<(nat, nat)>)
    ensures Replayed(gtt, a + b) == Replayed(Replayed(gtt, a), b)
    decreases |a|
  {
    if a == [] {
      assert a + b == b;
    } else {
      assert (a + b)[1..] == a[1..] + b;
      ReplayAppend(gtt[a[0].0 := a[0].1], a[1..], b);
    }
  }

  lemma {:induction false} ReplayFills(gtt: Gtt, first: nat, phys: nat, count: nat)
    ensures Replayed(gtt, PageEntries(first, phys, count)) == FillPage(gtt, first, phys, count)
    decreases count
  {
    if count > 0 {
      ReplayFills(gtt[first := phys], first + 1, phys + PAGE_4KB, count - 1);
      assert PageEntries(first, phys, count)[1..] == PageEntries(first + 1, phys + PAGE_4KB, count - 1);
    }
  }

  /** Whatever the page sizes, the entries queued in order rebuild the table: the stream misses nothing. */
  lemma {:induction false} WalkStreamsTable(s: GttState, bank: nat, va: nat, size: nat, pageSize: nat, lookOnly: bool, start: Gtt)
    requires GttPage(pageSize) && s.table == Replayed(start, s.queued)
    ensures var r := GttWalk(s, bank, va, size, pageSize, lookOnly).0; r.table == Replayed(start, r.queued)
    decreases size
  {
    hide PhysicalMemory.Reserve, FirstSlot, FillPage, PageEntries, Replayed;
    if size > 0 && !(FirstSlot(va, pageSize) !in s.table && lookOnly) {
      var phys := PhysicalMemory.Reserve(s.mem, bank, pageSize, pageSize).1;
      var first := FirstSlot(va, pageSize);
      ReplayAppend(start, s.queued, PageEntries(first, phys, pageSize / PAGE_4KB));
      ReplayFills(s.table, first, phys, pageSize / PAGE_4KB);
      var step := PageStep(pageSize, va, size);
      WalkStreamsTable(WithPage(s, bank, va, pageSize), bank, va + step, size - step, pageSize, lookOnly, start);
    }
  }

  // ---- whole blocks ----

  /** Every aligned block of sixteen entries is wholly absent or one 64KB stretch. */
  ghost predicate Blocks64(gtt: Gtt) {
    forall n :: BlockOk(gtt, n)
  }

  ghost predicate BlockOk(gtt: Gtt, n: nat) {
    var first := n / 16 * 16;
    (n in gtt <==> first in gtt) && (n in gtt ==> gtt[n] == gtt[first] + n % 16 * PAGE_4KB)
  }

  lemma FillKeepsBlocks(gtt: Gtt, first: nat, phys: nat)
    requires Blocks64(gtt) && first % 16 == 0 && first !in gtt
    ensures Blocks64(FillPage(gtt, first, phys, 16)) && Extends(gtt, FillPage(gtt, first, phys, 16))
  {
    var r := FillPage(gtt, first, phys, 16);
    forall n ensures BlockOk(r, n) && (n in gtt ==> n in r && r[n] == gtt[n]) {
      FillPageAt(gtt, first, phys, 16, n);
      FillPageAt(gtt, first, phys, 16, n / 16 * 16);
      assert BlockOk(gtt, n);
    }
  }

  ghost predicate Extends(a: Gtt, b: Gtt) {
    forall n :: n in a ==> n in b && b[n] == a[n]
  }

  lemma FirstSlotOf64(va: nat)
    ensures FirstSlot(va, PAGE_64KB) % 16 == 0
  {
  }

  /** 64KB walks only ever add whole blocks. */
  lemma {:induction false} WalkKeepsBlocks(s: GttState, bank: nat, va: nat, size: nat, lookOnly: bool)
    requires Blocks64(s.table)
    ensures var r := GttWalk(s, bank, va, size, PAGE_64KB, lookOnly).0; Blocks64(r.table) && Extends(s.table, r.table)
    decreases size
  {
    hide PhysicalMemory.Reserve, FirstSlot, FillPage, Blocks64, PageEntries;
    if size > 0 && !(FirstSlot(va, PAGE_64KB) !in s.table && lookOnly) {
      FirstSlotOf64(va);
      if FirstSlot(va, PAGE_64KB) !in s.table {
        FillKeepsBlocks(s.table, FirstSlot(va, PAGE_64KB), PhysicalMemory.Reserve(s.mem, bank, PAGE_64KB, PAGE_64KB).1);
      }
      var step := PageStep(PAGE_64KB, va, size);
      WalkKeepsBlocks(WithPage(s, bank, va, PAGE_64KB), bank, va + step, size - step, lookOnly);
    }
  }

  /** Looking adds nothing. */
  lemma {:induction false} LookKeepsState(s: GttState, bank: nat, va: nat, size: nat, pageSize: nat)
    requires GttPage(pageSize)
    ensures GttWalk(s, bank, va, size, pageSize, true).0 == s
    decreases size
  {
    hide FirstSlot, AddPage;
    if size > 0 && FirstSlot(va, pageSize) in s.table {
      LookKeepsState(s, bank, va + PageStep(pageSize, va, size), size - PageStep(pageSize, va, size), pageSize);
    }
  }

  // ---- what is reported ----

  lemma SlotOf64(va: nat, x: nat)
    requires va / PAGE_64KB == x / PAGE_64KB
    ensures FirstSlot(va, PAGE_64KB) == x / PAGE_4KB / 16 * 16
    ensures x % PAGE_64KB == x / PAGE_4KB % 16 * PAGE_4KB + x % PAGE_4KB
  {
    assert FirstSlot(va, PAGE_64KB) == x / PAGE_64KB * 16;
    assert x / PAGE_4KB / 16 == x / PAGE_64KB;
  }

  lemma SlotOf4(va: nat, x: nat)
    requires va / PAGE_4KB == x / PAGE_4KB
    ensures FirstSlot(va, PAGE_4KB) == x / PAGE_4KB
  {
  }

  /** 4KB pages say what the entries say; 64KB pages do if the blocks are whole. */
  ghost predicate Faithful(gtt: Gtt, pageSize: nat) {
    pageSize == PAGE_64KB ==> Blocks64(gtt)
  }

  lemma PageSizeDoesNotMatter(gtt: Gtt, va: nat, pageSize: nat, x: nat)
    requires GttPage(pageSize) && Faithful(gtt, pageSize) && va / pageSize == x / pageSize
    ensures var slot := FirstSlot(va, pageSize);
      if slot in gtt then GttTranslate(gtt, x) == Some(gtt[slot] + x % pageSize) else GttTranslate(gtt, x) == None
  {
    hide FirstSlot;
    if pageSize == PAGE_64KB {
      assert BlockOk(gtt, x / PAGE_4KB);
      SlotOf64(va, x);
    } else {
      SlotOf4(va, x);
    }
  }

  /** A 64KB page read through its first entry agrees with its 4KB entries on every byte if and only if its block is whole. */
  lemma LargePageExactly(gtt: Gtt, va: nat)
    requires va % PAGE_64KB == 0 && va / PAGE_4KB in gtt
    ensures (forall x :: va <= x < va + PAGE_64KB ==> GttTranslate(gtt, x) == Some(gtt[va / PAGE_4KB] + (x - va)))
            <==> forall n :: va / PAGE_4KB <= n < va / PAGE_4KB + 16 ==> BlockOk(gtt, n)
  {
    hide GttTranslate, BlockOk;
    var first := va / PAGE_4KB;
    if forall x :: va <= x < va + PAGE_64KB ==> GttTranslate(gtt, x) == Some(gtt[first] + (x - va)) {
      forall n | first <= n < first + 16 ensures BlockOk(gtt, n) {
        assert GttTranslate(gtt, va + (n - first) * PAGE_4KB) == Some(gtt[first] + (n - first) * PAGE_4KB);
        WholeSlot(gtt, va, n - first);
      }
    }
    if forall n :: first <= n < first + 16 ==> BlockOk(gtt, n) {
      forall x | va <= x < va + PAGE_64KB ensures GttTranslate(gtt, x) == Some(gtt[first] + (x - va)) {
        BlockArithmetic(va, x);
        assert BlockOk(gtt, x / PAGE_4KB);
        InBlock(gtt, va, x);
      }
    }
  }

  lemma WholeSlot(gtt: Gtt, va: nat, k: nat)
    requires va % PAGE_64KB == 0 && k < 16 && va / PAGE_4KB in gtt
    requires GttTranslate(gtt, va + k * PAGE_4KB) == Some(gtt[va / PAGE_4KB] + k * PAGE_4KB)
    ensures BlockOk(gtt, va / PAGE_4KB + k)
  {
    hide GttTranslate;
    SlotStart(gtt, va, k);
  }

  lemma SlotStart(gtt: Gtt, va: nat, k: nat)
    requires va % PAGE_64KB == 0 && k < 16
    ensures GttTranslate(gtt, va + k * PAGE_4KB) == if va / PAGE_4KB + k in gtt then Some(gtt[va / PAGE_4KB + k]) else None
    ensures (va / PAGE_4KB + k) / 16 * 16 == va / PAGE_4KB && (va / PAGE_4KB + k) % 16 == k
  {
    assert (va + k * PAGE_4KB) / PAGE_4KB == va / PAGE_4KB + k && (va + k * PAGE_4KB) % PAGE_4KB == 0;
    assert va / PAGE_4KB % 16 == 0;
  }

  lemma InBlock(gtt: Gtt, va: nat, x: nat)
    requires va % PAGE_64KB == 0 && va <= x < va + PAGE_64KB && va / PAGE_4KB in gtt && BlockOk(gtt, x / PAGE_4KB)
    ensures GttTranslate(gtt, x) == Some(gtt[va / PAGE_4KB] + (x - va))
  {
    BlockArithmetic(va, x);
  }

  lemma BlockArithmetic(va: nat, x: nat)
    requires va % PAGE_64KB == 0 && va <= x < va + PAGE_64KB
    ensures va / PAGE_4KB <= x / PAGE_4KB < va / PAGE_4KB + 16
    ensures x / PAGE_4KB / 16 * 16 == va / PAGE_4KB && x / PAGE_4KB % 16 * PAGE_4KB + x % PAGE_4KB == x - va
  {
    var n, d := va / PAGE_64KB, x - va;
    DivisionUnique(va, PAGE_4KB, n * 16, 0);
    DivisionUnique(x, PAGE_4KB, n * 16 + d / PAGE_4KB, d % PAGE_4KB);
    DivisionUnique(x / PAGE_4KB, 16, n, d / PAGE_4KB);
  }

  /** A 4KB page made by itself, read as part of a 64KB page: the page is reported whole although fifteen entries are missing. */
  lemma SmallThenLargeDisagrees()
    ensures var s := GttState(map[], [Arena(0x8_0000, [], [])], []);
      var s1 := GttWalk(s, 0, 0, PAGE_4KB, PAGE_4KB, false).0;
      var (_, runs, done) := GttWalk(s1, 0, 0, PAGE_64KB, PAGE_64KB, true);
      done && TotalSize(runs) == PAGE_64KB && GttTranslate(s1.table, PAGE_4KB) == None
  {
    var s := GttState(map[], [Arena(0x8_0000, [], [])], []);
    var s1 := WithPage(s, 0, 0, PAGE_4KB);
    assert FirstSlot(0, PAGE_4KB) == 0 && FirstSlot(0, PAGE_64KB) == 0;
    assert GttWalk(s1, 0, PAGE_4KB, 0, PAGE_4KB, false) == (s1, [], true);
    FillPageAt(map[], 0, PhysicalMemory.Reserve(s.mem, 0, PAGE_4KB, PAGE_4KB).1, 1, 1);
    assert GttWalk(s1, 0, PAGE_64KB, 0, PAGE_64KB, true) == (s1, [], true);
    var runs := [Run(s1.table[0], PAGE_64KB, false)];
    assert runs[1..] == [];
  }

  lemma {:induction false} ByteTargetFirst(run: Run, rest: seq<Run>, j: nat)
    ensures TotalSize([run] + rest) == run.size + TotalSize(rest)
    ensures ByteTarget([run] + rest, j) == if j < run.size then Some(Target(run.phys + j, run.local)) else ByteTarget(rest, j - run.size)
  {
    assert ([run] + rest)[1..] == rest && ([run] + rest)[0] == run;
  }

  ghost predicate ByteReported(gtt: Gtt, at: nat, runs: seq<Run>, local: bool, j: nat) {
    GttTranslate(gtt, at + j).Some? && ByteTarget(runs, j) == Some(Target(GttTranslate(gtt, at + j).value, local))
  }

  /** The reported bytes are what the table says, from `at` on. */
  ghost predicate Reports(gtt: Gtt, at: nat, runs: seq<Run>, local: bool) {
    forall j: nat :: j < TotalSize(runs) ==> ByteReported(gtt, at, runs, local, j)
  }

  lemma ReportsMore(gtt: Gtt, va: nat, run: Run, rest: seq<Run>, pageSize: nat)
    requires GttPage(pageSize) && Faithful(gtt, pageSize) && 0 < run.size <= pageSize - va % pageSize
    requires FirstSlot(va, pageSize) in gtt && run.phys == gtt[FirstSlot(va, pageSize)] + va % pageSize
    requires Reports(gtt, va + run.size, rest, run.local)
    ensures Reports(gtt, va, [run] + rest, run.local)
  {
    hide GttTranslate, FirstSlot, Faithful;
    forall j: nat | j < TotalSize([run] + rest) ensures ByteReported(gtt, va, [run] + rest, run.local, j) {
      ByteTargetFirst(run, rest, j);
      if j < run.size {
        SamePage(va, j, pageSize);
        PageSizeDoesNotMatter(gtt, va, pageSize, va + j);
      } else {
        assert ByteReported(gtt, va + run.size, rest, run.local, j - run.size);
        assert va + run.size + (j - run.size) == va + j;
      }
    }
  }

  /** Making a missing page keeps what was there, and keeps large pages whole. */
  lemma WithPageExtends(s: GttState, bank: nat, va: nat, pageSize: nat)
    requires GttPage(pageSize) && Faithful(s.table, pageSize)
    ensures var s1 := WithPage(s, bank, va, pageSize); Extends(s.table, s1.table) && Faithful(s1.table, pageSize)
  {
    hide PhysicalMemory.Reserve, FirstSlot, FillPage, Blocks64, PageEntries;
    var first, phys := FirstSlot(va, pageSize), PhysicalMemory.Reserve(s.mem, bank, pageSize, pageSize).1;
    if first !in s.table {
      if pageSize == PAGE_64KB {
        FirstSlotOf64(va);
        FillKeepsBlocks(s.table, first, phys);
      } else {
        forall n ensures n in s.table ==> n in FillPage(s.table, first, phys, 1) && FillPage(s.table, first, phys, 1)[n] == s.table[n] {
          FillPageAt(s.table, first, phys, 1, n);
        }
      }
    }
  }

  lemma {:induction false} WalkExtends(s: GttState, bank: nat, va: nat, size: nat, pageSize: nat, lookOnly: bool)
    requires GttPage(pageSize) && Faithful(s.table, pageSize)
    ensures var r := GttWalk(s, bank, va, size, pageSize, lookOnly).0; Extends(s.table, r.table) && Faithful(r.table, pageSize)
    decreases size
  {
    hide WithPage, FirstSlot, Faithful;
    if size > 0 && !(FirstSlot(va, pageSize) !in s.table && lookOnly) {
      WithPageExtends(s, bank, va, pageSize);
      WalkExtends(WithPage(s, bank, va, pageSize), bank, va + PageStep(pageSize, va, size), size - PageStep(pageSize, va, size), pageSize, lookOnly);
    }
  }

  /** A walk reports, byte for byte, what the table it leaves says; one that is looking ends at the first byte that is not there,
      and any other covers the range. */
  lemma {:induction false} WalkReports(s: GttState, bank: nat, va: nat, size: nat, pageSize: nat, lookOnly: bool)
    requires GttPage(pageSize) && Faithful(s.table, pageSize)
    ensures var (r, runs, done) := GttWalk(s, bank, va, size, pageSize, lookOnly);
      && Reports(r.table, va, runs, bank != 0) && TotalSize(runs) <= size
      && (done <==> TotalSize(runs) == size)
      && (!done ==> lookOnly && GttTranslate(r.table, va + TotalSize(runs)) == None)
    decreases size
  {
    hide WithPage, FirstSlot, Faithful, Extends, GttTranslate, Reports, GttWalk, PageStep;
    var (r, runs, done) := GttWalk(s, bank, va, size, pageSize, lookOnly);
    if size > 0 { GttTurn(s, bank, va, size, pageSize, lookOnly); } else { GttNothing(s, bank, va, pageSize, lookOnly); }
    if size == 0 {
      NothingReported(s.table, va, bank != 0);
    } else if FirstSlot(va, pageSize) !in s.table && lookOnly {
      NothingReported(s.table, va, bank != 0);
      PageSizeDoesNotMatter(s.table, va, pageSize, va);
    } else {
      var s1 := WithPage(s, bank, va, pageSize);
      var step := PageStep(pageSize, va, size);
      WithPageExtends(s, bank, va, pageSize);
      WalkExtends(s1, bank, va + step, size - step, pageSize, lookOnly);
      WalkReports(s1, bank, va + step, size - step, pageSize, lookOnly);
      var rest := GttWalk(s1, bank, va + step, size - step, pageSize, lookOnly).1;
      var run := Run(s1.table[FirstSlot(va, pageSize)] + va % pageSize, step, bank != 0);
      StillThere(s1.table, r.table, FirstSlot(va, pageSize));
      StepInside(pageSize, va, size);
      ReportsMore(r.table, va, run, rest, pageSize);
      ByteTargetFirst(run, rest, 0);
    }
  }

  lemma StepInside(pageSize: nat, va: nat, size: nat)
    requires pageSize > 0 && size > 0
    ensures 0 < PageStep(pageSize, va, size) <= pageSize - va % pageSize
  {
  }

  lemma StillThere(a: Gtt, b: Gtt, n: nat)
    requires Extends(a, b) && n in a
    ensures n in b && b[n] == a[n]
  {
  }

  lemma NothingReported(gtt: Gtt, at: nat, local: bool)
    ensures Reports(gtt, at, [], local) && TotalSize([]) == 0
  {
    var none: seq<Run> := [];
    assert TotalSize(none) == 0;
  }

  // ---- two granularities ----

  /** 64KB walks that make what is missing, one after another. */
  function Writes(s: GttState, bank: nat, calls: seq<(nat, nat)>): GttState
    decreases |calls|
  {
    if calls == [] then s else Writes(GttWalk(s, bank, calls[0].0, calls[0].1, PAGE_64KB, false).0, bank, calls[1..])
  }

  lemma {:induction false} WritesExtend(s: GttState, bank: nat, calls: seq<(nat, nat)>)
    requires Blocks64(s.table)
    ensures Blocks64(Writes(s, bank, calls).table) && Extends(s.table, Writes(s, bank, calls).table)
    decreases |calls|
  {
    hide Blocks64, GttWalk;
    if calls != [] {
      WalkKeepsBlocks(s, bank, calls[0].0, calls[0].1, false);
      WritesExtend(GttWalk(s, bank, calls[0].0, calls[0].1, PAGE_64KB, false).0, bank, calls[1..]);
    }
  }

  /** Memory written through 64KB pages and then, after any number of further such writes, looked at through 4KB pages: the look at
      any part of the range runs to its end, changes nothing, and reports for every byte the place that was written. */
  lemma GranularitiesAgree(s: GttState, bank: nat, gfx: nat, size: nat, later: seq<(nat, nat)>, at: nat, length: nat, j: nat)
    requires Blocks64(s.table) && gfx <= at && at + length <= gfx + size && j < length
    ensures var (s1, written, _) := GttWalk(s, bank, gfx, size, PAGE_64KB, false);
      var s2 := Writes(s1, bank, later);
      var (s3, seen, done) := GttWalk(s2, bank, at, length, PAGE_4KB, true);
      && done && s3 == s2 && TotalSize(written) == size && TotalSize(seen) == length
      && ByteTarget(seen, j).Some? && ByteTarget(seen, j) == ByteTarget(written, at - gfx + j)
  {
    hide GttWalk, Blocks64, Extends, GttTranslate, Writes, Reports;
    var (s1, written, done1) := GttWalk(s, bank, gfx, size, PAGE_64KB, false);
    WalkReports(s, bank, gfx, size, PAGE_64KB, false);
    WalkKeepsBlocks(s, bank, gfx, size, false);
    var s2 := Writes(s1, bank, later);
    WritesExtend(s1, bank, later);
    var (s3, seen, done) := GttWalk(s2, bank, at, length, PAGE_4KB, true);
    WalkReports(s2, bank, at, length, PAGE_4KB, true);
    LookKeepsState(s2, bank, at, length, PAGE_4KB);
    if TotalSize(seen) < length {
      ByteKept(s1.table, s2.table, gfx, written, bank != 0, at - gfx + TotalSize(seen));
      assert false;
    }
    ByteKept(s1.table, s2.table, gfx, written, bank != 0, at - gfx + j);
    ReportedAt(s2.table, at, seen, bank != 0, j);
  }

  lemma ReportedAt(gtt: Gtt, at: nat, runs: seq<Run>, local: bool, j: nat)
    requires Reports(gtt, at, runs, local) && j < TotalSize(runs)
    ensures GttTranslate(gtt, at + j).Some? && ByteTarget(runs, j) == Some(Target(GttTranslate(gtt, at + j).value, local))
  {
    assert ByteReported(gtt, at, runs, local, j);
  }

  lemma ByteKept(a: Gtt, b: Gtt, gfx: nat, runs: seq<Run>, local: bool, j: nat)
    requires Reports(a, gfx, runs, local) && Extends(a, b) && j < TotalSize(runs)
    ensures GttTranslate(b, gfx + j).Some? && ByteTarget(runs, j) == Some(Target(GttTranslate(b, gfx + j).value, local))
  {
    ReportedAt(a, gfx, runs, local, j);
  }

  // ---- the object ----

  class GttWalker {
    const memoryBank: nat
    var table: Gtt
    var mem: Physical
    var ggttEntries: seq<(nat, nat)>

    ghost function State(): GttState
      reads this
    {
      GttState(table, mem, ggttEntries)
    }

    constructor (memoryBank: nat, mem: Physical)
      ensures this.memoryBank == memoryBank && State() == GttState(map[], mem, []) && Blocks64(table)
    {
      this.memoryBank := memoryBank;
      this.mem := mem;
      table, ggttEntries := map[], [];
    }

    /** A new page: its first entry, then the others, each queued. */
    method AllocateChild(va: nat, pageSize: nat)
      requires GttPage(pageSize)
      modifies this
      ensures State() == AddPage(old(State()), memoryBank, va, pageSize)
    {
      hide PhysicalMemory.Reserve, FirstSlot;
      var first := FirstSlot(va, pageSize);
      var (mem', phys) := PhysicalMemory.Reserve(mem, memoryBank, pageSize, pageSize);
      mem := mem';
      table := table[first := phys];
      ggttEntries := ggttEntries + [(first, phys)];
      var entriesToDump := pageSize / PAGE_4KB;
      var physAddress := phys;
      assert FillPage(table, first + 1, physAddress + PAGE_4KB, entriesToDump - 1) == FillPage(old(table), first, phys, entriesToDump);
      for i := 1 to entriesToDump
        invariant physAddress == phys + (i - 1) * PAGE_4KB && mem == mem'
        invariant FillPage(table, first + i, phys + i * PAGE_4KB, entriesToDump - i) == FillPage(old(table), first, phys, entriesToDump)
        invariant ggttEntries == old(ggttEntries) + PageEntries(first, phys, i)
      {
        physAddress := physAddress + PAGE_4KB;
        table := table[first + i := physAddress];
        ggttEntries := ggttEntries + [(first + i, physAddress)];
      }
    }

    /** walkMemory on the global table */
    method WalkMemory(gfxAddress: nat, size: nat, pageSize: nat, lookOnly: bool) returns (entries: seq<Run>, completed: bool)
      requires GttPage(pageSize)
      modifies this
      ensures (State(), entries, completed) == GttWalk(old(State()), memoryBank, gfxAddress, size, pageSize, lookOnly)
    {
      hide FirstSlot, AddPage, GttWalk;
      entries := [];
      var va: nat, left: nat := gfxAddress, size;
      assert entries + GttWalk(State(), memoryBank, va, left, pageSize, lookOnly).1 == GttWalk(State(), memoryBank, va, left, pageSize, lookOnly).1;
      while left > 0
        invariant var (r, runs, done) := GttWalk(State(), memoryBank, va, left, pageSize, lookOnly);
          (r, entries + runs, done) == GttWalk(old(State()), memoryBank, gfxAddress, size, pageSize, lookOnly)
      {
        var pageOffset := va % pageSize;
        var index := FirstSlot(va, pageSize);
        ghost var before := State();
        ghost var rest := GttWalk(WithPage(before, memoryBank, va, pageSize), memoryBank, va + PageStep(pageSize, va, left),
                                  left - PageStep(pageSize, va, left), pageSize, lookOnly).1;
        GttTurn(before, memoryBank, va, left, pageSize, lookOnly);
        if index !in table {
          if lookOnly {
            assert entries + [] == entries;
            return entries, false;
          }
          AllocateChild(va, pageSize);
        }
        assert State() == WithPage(before, memoryBank, va, pageSize);
        var sizeThisPass := Min(left, pageSize - pageOffset);
        var info := Run(table[index] + pageOffset, sizeThisPass, memoryBank != 0);
        assert entries + ([info] + rest) == entries + [info] + rest;
        entries := entries + [info];
        left := left - sizeThisPass;
        va := va + sizeThisPass;
      }
      GttNothing(State(), memoryBank, va, pageSize, lookOnly);
      assert entries + [] == entries;
      completed := true;
    }
  }
}
