/** Freeing a range mends the PS64 groups it cuts through at either end. */
module Ps64Freeing {
  import opened Arithmetic
  import opened PageTables
  import opened PhysicalMemory
  import opened WalkModel
  import opened TreeFacts
  import opened WalkLookup
  import opened WalkStream
  import opened FrameOwnership
  import opened FreeModel
  import opened FreeFacts
  import opened FreeExact
  import opened Ps64Groups

  /** A marked entry between turns, pages cur..last still to go: its group is whole, or it will go itself, or the last
      page of the range is in its group and will mend it. */
  ghost predicate Sits(cfg: Config, nodes: Forest, tree: nat, cur: nat, last: nat, t: Slot)
    requires t in nodes
  {
    t.level == 0 && nodes[t].ps64 ==>
      && Under4KB(nodes, t.tree, t)
      && (GroupOk(cfg, nodes, t)
          || (t.tree == tree && cur <= t.num <= last)
          || (t.tree == tree && cur <= last < t.num && InGroup(t, Slot(tree, 0, last))
              && Slot(tree, 0, last) in nodes && nodes[Slot(tree, 0, last)].ps64))
  }

  ghost predicate FreeProgress(cfg: Config, nodes: Forest, tree: nat, cur: nat, last: nat) {
    forall t :: t in nodes ==> Sits(cfg, nodes, tree, cur, last, t)
  }

  /** The page before the cursor is gone, unless the cursor is at the start or at a group boundary. */
  predicate Behind(nodes: Forest, tree: nat, va: nat, start: nat) {
    va == start || va % PAGE_64KB == 0 || (va % PAGE_4KB == 0 && Slot(tree, 0, va / PAGE_4KB - 1) !in nodes)
  }

  lemma NothingLeft(cfg: Config, nodes: Forest, tree: nat, cur: nat, last: nat)
    requires cur > last
    ensures FreeProgress(cfg, nodes, tree, cur, last) <==> GroupsIntact(cfg, nodes)
  {
    hide GroupOk;
    forall t | t in nodes ensures Sits(cfg, nodes, tree, cur, last, t) <==> MarkKept(cfg, nodes, t) {}
  }

  lemma AllSit(cfg: Config, nodes: Forest, tree: nat, cur: nat, last: nat)
    requires GroupsIntact(cfg, nodes)
    ensures FreeProgress(cfg, nodes, tree, cur, last)
  {
    hide GroupOk;
    forall t | t in nodes ensures Sits(cfg, nodes, tree, cur, last, t) { assert MarkKept(cfg, nodes, t); }
  }

  // ---- the entries a 4KB page's freeing touches ----

  /** The slot is in a stretch of entries that lose their mark. */
  predicate Mended(s: Slot, x: Slot, va: nat, size: nat, start: nat, end: nat) {
    && InGroup(s, x)
    && ((va == start && start % PAGE_64KB != 0 && x.num < s.num) || (size <= PAGE_4KB && end % PAGE_64KB != 0 && x.num > s.num))
  }

  ghost predicate LeafFreed(a: Forest, b: Forest, s: Slot, va: nat, size: nat, start: nat, end: nat) {
    && b.Keys == a.Keys - {s}
    && forall x :: x in b ==>
         b[x] == if s in a && a[s].ps64 && Mended(s, x, va, size, start, end) then a[x].(ps64 := false) else a[x]
  }

  ghost predicate Unmarked(a: Forest, b: Forest, tree: nat, low: nat, high: nat) {
    && b.Keys == a.Keys
    && forall x :: x in a ==>
         b[x] == if x.tree == tree && x.level == 0 && low <= x.num < high then a[x].(ps64 := false) else a[x]
  }

  lemma {:induction false} UnmarkRangeNodes(cfg: Config, f: Freeing, low: nat, high: nat)
    ensures Unmarked(f.nodes, UnmarkRange(cfg, f, low, high).nodes, f.tree, low, high)
    ensures UnmarkRange(cfg, f, low, high).tree == f.tree
    decreases high - low
  {
    hide EntryOf, EntryAddress;
    if low < high {
      UnmarkRangeNodes(cfg, Unmark(cfg, f, Slot(f.tree, 0, low)), low + 1, high);
    }
  }

  lemma FreeLeafNodes(cfg: Config, f: Freeing, s: Slot, va: nat, size: nat, start: nat, end: nat)
    requires s.level == 0 && s.tree == f.tree
    ensures LeafFreed(f.nodes, FreeLeaf(cfg, f, s, va, size, start, end).nodes, s, va, size, start, end)
  {
    hide Delete, UnmarkRange, GroupBase, InGroup;
    if s in f.nodes {
      DeleteNodes(f, s);
      var f0 := Delete(f, s);
      UnmarkRangeNodes(cfg, f0, GroupBase(s), s.num);
      var f1 := if va == start && start % PAGE_64KB != 0 then UnmarkRange(cfg, f0, GroupBase(s), s.num) else f0;
      UnmarkRangeNodes(cfg, f1, s.num + 1, GroupBase(s) + 16);
      InGroupRange(s);
    }
  }

  lemma InGroupRange(s: Slot)
    ensures GroupBase(s) <= s.num < GroupBase(s) + 16
    ensures forall x :: InGroup(s, x) <==> x.tree == s.tree && x.level == 0 && GroupBase(s) <= x.num < GroupBase(s) + 16
  {
  }

  // ---- one page ----

  lemma WholeGroupKept(cfg: Config, a: Forest, b: Forest, t: Slot)
    requires t.level == 0 && GroupOk(cfg, a, t)
    requires forall x :: InGroup(t, x) ==> (x in a <==> x in b) && (x in a ==> b[x] == a[x])
    ensures GroupOk(cfg, b, t)
  {
    hide FlagsOf;
    forall i | 0 <= i < 16 ensures InGroup(t, Member(t, i)) { MemberFacts(t, i); }
  }

  /** A marked whole group has all of its entries, marked. */
  lemma WholeGroupHas(cfg: Config, nodes: Forest, t: Slot, x: Slot)
    requires t in nodes && t.level == 0 && nodes[t].ps64 && GroupOk(cfg, nodes, t) && InGroup(t, x)
    ensures x in nodes && nodes[x].ps64
  {
    hide GroupComplete;
    assert InGroup(t, t);
    assert x == Member(t, x.num % 16);
  }

  lemma SmallFreeSits(cfg: Config, a: Forest, b: Forest, tree: nat, va: nat, size: nat, start: nat, end: nat, t: Slot)
    requires size > 0 && end == va + size && FreeProgress(cfg, a, tree, va / PAGE_4KB, (end - 1) / PAGE_4KB)
    requires Behind(a, tree, va, start) && LeafFreed(a, b, Slot(tree, 0, va / PAGE_4KB), va, size, start, end)
    requires t in b && (t.level == 0 && b[t].ps64 ==> Under4KB(b, t.tree, t))
    ensures Sits(cfg, b, tree, va / PAGE_4KB + 1, (end - 1) / PAGE_4KB, t)
  {
    hide GroupOk, FreeProgress;
    var cur, last := va / PAGE_4KB, (end - 1) / PAGE_4KB;
    var s := Slot(tree, 0, cur);
    if t.level == 0 && b[t].ps64 {
      assert Sits(cfg, a, tree, cur, last, t) by { SitsHere(cfg, a, tree, cur, last, t); }
      if !InGroup(s, t) {
        OtherGroupSits(cfg, a, b, tree, va, size, start, end, t);
      } else if s in a && a[s].ps64 {
        MarkedGroupSits(cfg, a, b, tree, va, size, start, end, t);
      } else {
        if GroupOk(cfg, a, t) { WholeGroupHas(cfg, a, t, s); }
      }
    }
  }

  lemma SitsHere(cfg: Config, nodes: Forest, tree: nat, cur: nat, last: nat, t: Slot)
    requires FreeProgress(cfg, nodes, tree, cur, last) && t in nodes
    ensures Sits(cfg, nodes, tree, cur, last, t)
  {
  }

  lemma OtherGroupSits(cfg: Config, a: Forest, b: Forest, tree: nat, va: nat, size: nat, start: nat, end: nat, t: Slot)
    requires size > 0 && end == va + size && LeafFreed(a, b, Slot(tree, 0, va / PAGE_4KB), va, size, start, end)
    requires t in b && t.level == 0 && b[t].ps64 && Under4KB(b, t.tree, t) && !InGroup(Slot(tree, 0, va / PAGE_4KB), t)
    requires t in a && Sits(cfg, a, tree, va / PAGE_4KB, (end - 1) / PAGE_4KB, t)
    ensures Sits(cfg, b, tree, va / PAGE_4KB + 1, (end - 1) / PAGE_4KB, t)
  {
    hide GroupOk;
    var s := Slot(tree, 0, va / PAGE_4KB);
    assert forall x :: InGroup(t, x) ==> !InGroup(s, x);
    if GroupOk(cfg, a, t) { WholeGroupKept(cfg, a, b, t); }
  }

  lemma MarkedGroupSits(cfg: Config, a: Forest, b: Forest, tree: nat, va: nat, size: nat, start: nat, end: nat, t: Slot)
    requires size > 0 && end == va + size && LeafFreed(a, b, Slot(tree, 0, va / PAGE_4KB), va, size, start, end)
    requires t in b && t.level == 0 && b[t].ps64 && Under4KB(b, t.tree, t) && InGroup(Slot(tree, 0, va / PAGE_4KB), t)
    requires Slot(tree, 0, va / PAGE_4KB) in a && a[Slot(tree, 0, va / PAGE_4KB)].ps64 && Behind(a, tree, va, start)
    requires t in a && Sits(cfg, a, tree, va / PAGE_4KB, (end - 1) / PAGE_4KB, t)
    ensures Sits(cfg, b, tree, va / PAGE_4KB + 1, (end - 1) / PAGE_4KB, t)
  {
    hide GroupOk;
    var cur, last := va / PAGE_4KB, (end - 1) / PAGE_4KB;
    var s := Slot(tree, 0, cur);
    var l := Slot(tree, 0, last);
    assert a[t].ps64 && !Mended(s, t, va, size, start, end);
    if t.num < cur {
      EarlierInGroup(va, start, t.num);
      if GroupOk(cfg, a, t) { WholeGroupHas(cfg, a, t, Slot(tree, 0, cur - 1)); }
      assert false;
    } else if t.num > last {
      LaterInGroup(va, size, end, t.num);
      if GroupOk(cfg, a, t) { WholeGroupHas(cfg, a, t, l); }
      assert l in a && a[l].ps64;
    }
  }

  lemma EarlierInGroup(va: nat, start: nat, n: nat)
    requires n < va / PAGE_4KB && n / 16 == va / PAGE_4KB / 16
    ensures va % PAGE_64KB != 0 && n / 16 == (va / PAGE_4KB - 1) / 16
  {
  }

  lemma LaterInGroup(va: nat, size: nat, end: nat, n: nat)
    requires size > 0 && end == va + size && (end - 1) / PAGE_4KB < n && n / 16 == va / PAGE_4KB / 16
    ensures end % PAGE_64KB != 0 && (end - 1) / PAGE_4KB / 16 == n / 16
    ensures size > PAGE_4KB ==> (end - 1) / PAGE_4KB > va / PAGE_4KB
  {
  }

  /** The leaf of a 4KB page, then its table if that emptied it. */
  lemma SmallPageFrees(cfg: Config, g: Layout, n0: Forest, mem0: Physical, f: Freeing, va: nat, size: nat, start: nat, end: nat)
    requires FreeInv(cfg, g, n0, mem0, f) && size > 0 && end == va + size
    requires TableSlot(f.tree, 1, va) in f.nodes && f.nodes[TableSlot(f.tree, 1, va)].kind.Pte4KB?
    requires FreeProgress(cfg, f.nodes, f.tree, va / PAGE_4KB, (end - 1) / PAGE_4KB) && Behind(f.nodes, f.tree, va, start)
    ensures var b := FreePage(cfg, f, va, size, start, end).nodes;
      && FreeProgress(cfg, b, f.tree, va / PAGE_4KB + 1, (end - 1) / PAGE_4KB)
      && Slot(f.tree, 0, va / PAGE_4KB) !in b
  {
    hide FreeInv, FreeLeaf, Delete, Empty, LeafSlot, FreeProgress, Behind, LeafFreed, Sits, FreePage, DeleteIfEmpty, WellFormed, Shrunk, PageGone;
    var s := Slot(f.tree, 0, va / PAGE_4KB);
    var p := TableSlot(f.tree, 1, va);
    SmallLeafSlot(cfg, f.tree, va);
    FreeLeafNodes(cfg, f, s, va, size, start, end);
    var f1 := FreeLeaf(cfg, f, s, va, size, start, end);
    FreeLeafKeepsInv(cfg, g, n0, mem0, f, s, va, size, start, end);
    FreePageKeepsInv(cfg, g, n0, mem0, f, va, size, start, end);
    SmallPageIs(cfg, f, va, size, start, end);
    var b := FreePage(cfg, f, va, size, start, end).nodes;
    InvParts(cfg, g, n0, mem0, f);
    InvParts(cfg, g, n0, mem0, FreePage(cfg, f, va, size, start, end));
    DeleteIfEmptyNodes(f1, p);
    LeafFreedGone(f.nodes, f1.nodes, s, va, size, start, end);
    forall t | t in b ensures Sits(cfg, b, f.tree, va / PAGE_4KB + 1, (end - 1) / PAGE_4KB, t) {
      if t.level == 0 {
        SurvivorUnder(cfg, g, n0, mem0, f, f1.nodes, b, va, size, end, t);
        SmallFreeSits(cfg, f.nodes, f1.nodes, f.tree, va, size, start, end, t);
        SitsAlike(cfg, f1.nodes, b, f.tree, va / PAGE_4KB + 1, (end - 1) / PAGE_4KB, t);
      } else {
        HighSits(cfg, b, f.tree, va / PAGE_4KB + 1, (end - 1) / PAGE_4KB, t);
      }
    }
    ProgressFromSits(cfg, b, f.tree, va / PAGE_4KB + 1, (end - 1) / PAGE_4KB);
  }

  lemma LeafFreedGone(a: Forest, b: Forest, s: Slot, va: nat, size: nat, start: nat, end: nat)
    requires LeafFreed(a, b, s, va, size, start, end)
    ensures s !in b && forall t :: t in b ==> t in a && (b[t].ps64 ==> a[t].ps64)
  {
  }

  lemma ProgressFromSits(cfg: Config, nodes: Forest, tree: nat, cur: nat, last: nat)
    requires forall t :: t in nodes ==> Sits(cfg, nodes, tree, cur, last, t)
    ensures FreeProgress(cfg, nodes, tree, cur, last)
  {
  }

  lemma SmallPageIs(cfg: Config, f: Freeing, va: nat, size: nat, start: nat, end: nat)
    requires TableSlot(f.tree, 1, va) in f.nodes && f.nodes[TableSlot(f.tree, 1, va)].kind.Pte4KB?
    ensures FreePage(cfg, f, va, size, start, end)
      == DeleteIfEmpty(FreeLeaf(cfg, f, LeafSlot(cfg, f.tree, Pte4KB, va), va, size, start, end), TableSlot(f.tree, 1, va))
  {
    hide FreeLeaf, DeleteIfEmpty, LeafSlot;
  }

  lemma DeleteIfEmptyNodes(f: Freeing, p: Slot)
    requires p.level < 5
    ensures var b := DeleteIfEmpty(f, p).nodes;
      && (forall x :: x in b <==> x in f.nodes && !(x == p && Empty(f.nodes, p)))
      && (forall x :: x in b ==> b[x] == f.nodes[x])
  {
    hide Empty, Append, FreeFrame;
  }

  lemma HighSits(cfg: Config, nodes: Forest, tree: nat, cur: nat, last: nat, t: Slot)
    requires t in nodes && t.level > 0
    ensures Sits(cfg, nodes, tree, cur, last, t)
  {
  }

  /** Tables above the leaves that stay are as they were. */
  lemma SurvivorUnder(cfg: Config, g: Layout, n0: Forest, mem0: Physical, f: Freeing, c: Forest, b: Forest, va: nat, size: nat, end: nat, t: Slot)
    requires ValidConfig(cfg) && WellFormed(cfg, b) && Shrunk(f.nodes, b) && t in b && t.level == 0
    requires size > 0 && end == va + size && FreeProgress(cfg, f.nodes, f.tree, va / PAGE_4KB, (end - 1) / PAGE_4KB)
    requires (forall x :: x in b ==> x in c && b[x] == c[x]) && (b[t].ps64 ==> t in f.nodes && f.nodes[t].ps64)
    ensures t in c && (c[t].ps64 ==> Under4KB(c, t.tree, t) && Under4KB(b, t.tree, t))
  {
    hide WellFormed, GroupOk, FreeInv;
    ParentKept(cfg, b, t);
    assert t in f.nodes && Sits(cfg, f.nodes, f.tree, va / PAGE_4KB, (end - 1) / PAGE_4KB, t);
  }

  lemma SitsAlike(cfg: Config, a: Forest, b: Forest, tree: nat, cur: nat, last: nat, t: Slot)
    requires t in a && t in b && t.level == 0 && Sits(cfg, a, tree, cur, last, t)
    requires b[t].ps64 ==> Under4KB(b, t.tree, t)
    requires forall x: Slot :: x.level == 0 ==> (x in a <==> x in b) && (x in a ==> b[x] == a[x])
    ensures Sits(cfg, b, tree, cur, last, t)
  {
    hide GroupOk;
    if GroupOk(cfg, a, t) { WholeGroupKept(cfg, a, b, t); }
  }

  // ---- other page sizes ----

  ghost predicate LargeFreed(a: Forest, b: Forest, p: Slot) {
    && (forall x :: x in b ==> x in a && b[x] == a[x])
    && (forall x: Slot :: x.level == 0 && x in a && Parent(x) != p ==> x in b)
  }

  lemma LargePageNodes(cfg: Config, f: Freeing, va: nat, size: nat, start: nat, end: nat)
    requires TableSlot(f.tree, 1, va) in f.nodes && !f.nodes[TableSlot(f.tree, 1, va)].kind.Pte4KB?
    requires forall x: Slot :: x in f.nodes && x.level == 0 && f.nodes[x].ps64 ==> Under4KB(f.nodes, x.tree, x)
    ensures LargeFreed(f.nodes, FreePage(cfg, f, va, size, start, end).nodes, TableSlot(f.tree, 1, va))
  {
    hide Delete, DeleteIfEmpty, LeafSlot;
    var p := TableSlot(f.tree, 1, va);
    if f.nodes[p].kind.Page2MB? {
      DeleteNodes(f, p);
      DeleteIfEmptyNodes(Delete(f, p), TableSlot(f.tree, 2, va));
    } else {
      var s := LeafSlot(cfg, f.tree, f.nodes[p].kind, va);
      LeafSlotParent(cfg, f.tree, f.nodes[p].kind, va);
      LeafSlotLevel(cfg, f.tree, f.nodes[p].kind, va);
      if s in f.nodes { DeleteNodes(f, s); }
      DeleteIfEmptyNodes(FreeLeaf(cfg, f, s, va, size, start, end), p);
    }
  }

  lemma LargeFreeSits(cfg: Config, a: Forest, b: Forest, tree: nat, cur: nat, next: nat, last: nat, p: Slot, t: Slot)
    requires LargeFreed(a, b, p) && p in a && !a[p].kind.Pte4KB? && FreeProgress(cfg, a, tree, cur, last)
    requires forall n :: cur <= n < next ==> Parent(Slot(tree, 0, n)) == p
    requires t in b && t.level == 0 && (b[t].ps64 ==> Under4KB(b, t.tree, t))
    requires cur <= last
    ensures Sits(cfg, b, tree, next, last, t)
  {
    hide GroupOk;
    assert Sits(cfg, a, tree, cur, last, t);
    if b[t].ps64 {
      assert Parent(t) != p;
      forall x | InGroup(t, x) ensures (x in a <==> x in b) && (x in a ==> b[x] == a[x]) { SameTable(t, x); }
      if GroupOk(cfg, a, t) {
        WholeGroupKept(cfg, a, b, t);
      } else if t.num > last {
        var l := Slot(tree, 0, last);
        SameTable(t, l);
        assert Sits(cfg, a, tree, cur, last, l);
      }
    }
  }

  lemma PagesOfPde(va: nat, unit: nat, size: nat, tree: nat)
    requires (unit == PAGE_64KB || unit == PAGE_2MB) && size > 0
    ensures var next := va + PageStep(unit, va, size);
      forall n :: va / PAGE_4KB <= n < (next + PAGE_4KB - 1) / PAGE_4KB ==> Parent(Slot(tree, 0, n)) == TableSlot(tree, 1, va)
  {
  }

  lemma LargePageFrees(cfg: Config, g: Layout, n0: Forest, mem0: Physical, f: Freeing, va: nat, size: nat, start: nat, end: nat)
    requires FreeInv(cfg, g, n0, mem0, f) && size > 0 && end == va + size
    requires TableSlot(f.tree, 1, va) in f.nodes && !f.nodes[TableSlot(f.tree, 1, va)].kind.Pte4KB?
    requires FreeProgress(cfg, f.nodes, f.tree, va / PAGE_4KB, (end - 1) / PAGE_4KB)
    ensures var b := FreePage(cfg, f, va, size, start, end).nodes;
      var next := va + PageStep(PageSizeAt(f.nodes[TableSlot(f.tree, 1, va)].kind), va, size);
      FreeProgress(cfg, b, f.tree, (next + PAGE_4KB - 1) / PAGE_4KB, (end - 1) / PAGE_4KB)
  {
    hide FreeInv, FreeProgress, Sits, FreePage, WellFormed, Shrunk, PageGone, LargeFreed, PageStep, GroupOk, ValidPhysical, ReturnsFrames, QueueOk;
    var p := TableSlot(f.tree, 1, va);
    var next := va + PageStep(PageSizeAt(f.nodes[p].kind), va, size);
    InvParts(cfg, g, n0, mem0, f);
    FreePageKeepsInv(cfg, g, n0, mem0, f, va, size, start, end);
    InvParts(cfg, g, n0, mem0, FreePage(cfg, f, va, size, start, end));
    PdeKind(cfg, f.nodes, p);
    MarkedUnder4KB(cfg, f.nodes, f.tree, va / PAGE_4KB, (end - 1) / PAGE_4KB);
    LargePageNodes(cfg, f, va, size, start, end);
    PagesOfPde(va, PageSizeAt(f.nodes[p].kind), size, f.tree);
    LastIsAhead(va, size, end);
    LargeFreedProgress(cfg, f.nodes, FreePage(cfg, f, va, size, start, end).nodes, f.tree,
                       va / PAGE_4KB, (next + PAGE_4KB - 1) / PAGE_4KB, (end - 1) / PAGE_4KB, p);
  }

  lemma LastIsAhead(va: nat, size: nat, end: nat)
    requires size > 0 && end == va + size
    ensures va / PAGE_4KB <= (end - 1) / PAGE_4KB
  {
  }

  lemma LargeFreedProgress(cfg: Config, a: Forest, b: Forest, tree: nat, cur: nat, next: nat, last: nat, p: Slot)
    requires ValidConfig(cfg) && WellFormed(cfg, b) && Shrunk(a, b)
    requires LargeFreed(a, b, p) && p in a && !a[p].kind.Pte4KB? && FreeProgress(cfg, a, tree, cur, last) && cur <= last
    requires forall n :: cur <= n < next ==> Parent(Slot(tree, 0, n)) == p
    ensures FreeProgress(cfg, b, tree, next, last)
  {
    hide FreeProgress, Sits, WellFormed, GroupOk, Under4KB;
    forall t | t in b ensures Sits(cfg, b, tree, next, last, t) {
      if t.level == 0 {
        LargeSurvivorUnder(cfg, a, b, tree, cur, last, p, t);
        LargeFreeSits(cfg, a, b, tree, cur, next, last, p, t);
      } else {
        HighSits(cfg, b, tree, next, last, t);
      }
    }
    ProgressFromSits(cfg, b, tree, next, last);
  }

  lemma LargeSurvivorUnder(cfg: Config, a: Forest, b: Forest, tree: nat, cur: nat, last: nat, p: Slot, t: Slot)
    requires ValidConfig(cfg) && WellFormed(cfg, b) && LargeFreed(a, b, p) && FreeProgress(cfg, a, tree, cur, last)
    requires t in b && t.level == 0
    ensures b[t].ps64 ==> Under4KB(b, t.tree, t)
  {
    hide WellFormed, GroupOk;
    ParentKept(cfg, b, t);
    assert Sits(cfg, a, tree, cur, last, t);
  }

  lemma MarkedUnder4KB(cfg: Config, nodes: Forest, tree: nat, cur: nat, last: nat)
    requires FreeProgress(cfg, nodes, tree, cur, last)
    ensures forall x: Slot :: x in nodes && x.level == 0 && nodes[x].ps64 ==> Under4KB(nodes, x.tree, x)
  {
    hide GroupOk;
    forall x: Slot | x in nodes && x.level == 0 && nodes[x].ps64 ensures Under4KB(nodes, x.tree, x) {
      assert Sits(cfg, nodes, tree, cur, last, x);
    }
  }

  // ---- the whole range ----

  lemma {:induction false} FreeFromKeepsGroups(cfg: Config, g: Layout, n0: Forest, mem0: Physical, f: Freeing, va: nat, size: nat, start: nat, end: nat)
    requires FreeInv(cfg, g, n0, mem0, f) && end == va + size
    requires size == 0 ==> GroupsIntact(cfg, f.nodes)
    requires size > 0 ==> FreeProgress(cfg, f.nodes, f.tree, va / PAGE_4KB, (end - 1) / PAGE_4KB) && Behind(f.nodes, f.tree, va, start)
    requires FreeFrom(cfg, f, va, size, start, end).1
    ensures GroupsIntact(cfg, FreeFrom(cfg, f, va, size, start, end).0.nodes)
    decreases size
  {
    hide FreePage, FreeFrom, FreeInv, PageGone, Shrunk, PageStep, WellFormed, ValidPhysical, ReturnsFrames, QueueOk, GroupsIntact, FreeProgress, Behind;
    if size == 0 {
      FreeNothing(cfg, f, va, start, end);
    } else {
      FreeTurn(cfg, f, va, size, start, end);
      InvParts(cfg, g, n0, mem0, f);
      var unit := PageSizeOf(f.nodes, f.tree, va).value;
      PdeKind(cfg, f.nodes, TableSlot(f.tree, 1, va));
      var step := PageStep(unit, va, size);
      FreePageKeepsInv(cfg, g, n0, mem0, f, va, size, start, end);
      var f1 := FreePage(cfg, f, va, size, start, end);
      if unit == PAGE_4KB { SmallPageFrees(cfg, g, n0, mem0, f, va, size, start, end); }
      else { LargePageFrees(cfg, g, n0, mem0, f, va, size, start, end); }
      NextCursor(f1.nodes, f.tree, va, unit, size, start, end);
      if size == step { NothingLeft(cfg, f1.nodes, f.tree, if unit == PAGE_4KB then va / PAGE_4KB + 1 else (end + PAGE_4KB - 1) / PAGE_4KB, (end - 1) / PAGE_4KB); }
      FreeFromKeepsGroups(cfg, g, n0, mem0, f1, va + step, size - step, start, end);
    }
  }

  lemma NextCursor(nodes: Forest, tree: nat, va: nat, unit: nat, size: nat, start: nat, end: nat)
    requires (unit == PAGE_4KB || unit == PAGE_64KB || unit == PAGE_2MB) && size > 0 && end == va + size
    requires unit == PAGE_4KB ==> Slot(tree, 0, va / PAGE_4KB) !in nodes
    ensures var step := PageStep(unit, va, size); var next := va + step;
      && (size > step ==> Behind(nodes, tree, next, start) && next / PAGE_4KB == (next + PAGE_4KB - 1) / PAGE_4KB)
      && (size > step && unit == PAGE_4KB ==> next / PAGE_4KB == va / PAGE_4KB + 1)
      && (size == step && unit == PAGE_4KB ==> va / PAGE_4KB + 1 > (end - 1) / PAGE_4KB)
      && (size == step ==> (end + PAGE_4KB - 1) / PAGE_4KB > (end - 1) / PAGE_4KB)
  {
    var next := va + PageStep(unit, va, size);
    if unit == PAGE_4KB { SmallStep(va, size); } else if next < va + size { LargeStep(va, unit, size); }
    LastPage(end);
  }

  lemma SmallStep(va: nat, size: nat)
    requires size > 0
    ensures var next := va + PageStep(PAGE_4KB, va, size);
      && (size > PageStep(PAGE_4KB, va, size) ==>
            && next % PAGE_4KB == 0 && next / PAGE_4KB == va / PAGE_4KB + 1
            && (next + PAGE_4KB - 1) / PAGE_4KB == next / PAGE_4KB)
      && (size == PageStep(PAGE_4KB, va, size) ==> (next - 1) / PAGE_4KB == va / PAGE_4KB)
  {
  }

  lemma LargeStep(va: nat, unit: nat, size: nat)
    requires (unit == PAGE_64KB || unit == PAGE_2MB) && size > PageStep(unit, va, size)
    ensures var next := va + PageStep(unit, va, size); next % PAGE_64KB == 0 && (next + PAGE_4KB - 1) / PAGE_4KB == next / PAGE_4KB
  {
    LargePageEnds(va, unit);
    PageEndAfter(va, unit);
    var m: nat :| PageEnd(va, unit) == m * PAGE_64KB;
    WholePages(PageEnd(va, unit), m);
  }

  lemma LastPage(end: nat)
    requires end > 0
    ensures (end + PAGE_4KB - 1) / PAGE_4KB == (end - 1) / PAGE_4KB + 1
  {
    DivisionUnique(end - 1 + PAGE_4KB, PAGE_4KB, (end - 1) / PAGE_4KB + 1, (end - 1) % PAGE_4KB);
  }

  /** A free that runs to its end (a mapped range's does) keeps every PS64 promise, wherever the range starts and ends. */
  lemma FreeKeepsGroups(cfg: Config, g: Layout, nodes: Forest, mem: Physical, tree: nat, va: nat, size: nat)
    requires ValidConfig(cfg) && WellFormed(cfg, nodes) && ValidPhysical(mem, g) && GroupsIntact(cfg, nodes)
    requires FreeMemory(cfg, nodes, mem, tree, va, size).1
    ensures GroupsIntact(cfg, FreeMemory(cfg, nodes, mem, tree, va, size).0.nodes)
  {
    hide FreeFrom, FreeInv, WellFormed, ValidPhysical, GroupsIntact, FreeProgress;
    var f := Freeing(tree, nodes, mem, [[], [], [], [], []]);
    StartFree(cfg, g, f);
    if size > 0 { AllSit(cfg, nodes, tree, va / PAGE_4KB, (va + size - 1) / PAGE_4KB); }
    FreeFromKeepsGroups(cfg, g, nodes, mem, f, va, size, va, va + size);
  }
}
