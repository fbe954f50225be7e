/** When the PS64 look-ahead is wrong the mark it made stays wrong; so the promise is kept exactly when it is not wrong. */
module Ps64Lookahead {
  import opened Wrappers
  import opened Arithmetic
  import opened PageTables
  import opened WalkModel
  import opened TreeFacts
  import opened WalkLookup
  import opened WalkStream
  import opened Ps64Groups
  import opened Ps64Mapping
  import PhysicalMemory

  /** Members 0 and j cannot both belong to one complete group. */
  predicate Mismatch(cfg: Config, nodes: Forest, c: Slot, j: nat) {
    var first, m := Member(c, 0), Member(c, j);
    !(first in nodes && m in nodes && nodes[m].phys == nodes[first].phys + j * PAGE_4KB
      && FlagsOf(cfg, nodes[m]) == FlagsOf(cfg, nodes[first]))
  }

  /** c is marked, and an earlier member of its group can never match. */
  ghost predicate Stuck(cfg: Config, nodes: Forest, c: Slot) {
    c.level == 0 && Under4KB(nodes, c.tree, c) && c in nodes && nodes[c].ps64
    && exists j :: 0 < j < c.num % 16 && Mismatch(cfg, nodes, c, j)
  }

  lemma MismatchNotComplete(cfg: Config, nodes: Forest, c: Slot, j: nat)
    requires j < 16 && Mismatch(cfg, nodes, c, j)
    ensures !GroupComplete(cfg, nodes, c)
  {
    hide FlagsOf;
  }

  lemma StuckNotIntact(cfg: Config, nodes: Forest, c: Slot)
    requires Stuck(cfg, nodes, c)
    ensures !GroupsIntact(cfg, nodes)
  {
    hide GroupComplete, FlagsOf, Mismatch;
    var j :| 0 < j < c.num % 16 && Mismatch(cfg, nodes, c, j);
    MismatchNotComplete(cfg, nodes, c, j);
    assert InGroup(c, c);
    assert !MarkKept(cfg, nodes, c);
  }

  lemma SameMembersSameMismatch(cfg: Config, a: Forest, b: Forest, c: Slot, j: nat)
    requires j < 16
    requires forall i {:trigger Member(c, i)} :: 0 <= i <= j ==> (Member(c, i) in a <==> Member(c, i) in b)
    requires forall i {:trigger Member(c, i)} :: 0 <= i <= j && Member(c, i) in a ==>
      b[Member(c, i)] == a[Member(c, i)].(ps64 := b[Member(c, i)].ps64, pending := b[Member(c, i)].pending)
    ensures Mismatch(cfg, a, c, j) == Mismatch(cfg, b, c, j)
  {
  }

  /** A later page does not repair it. */
  lemma SmallVisitStuck(cfg: Config, q: Request, w: Walk, va: nat, size: nat, target: nat, v: Visit, w1: Walk, c: Slot)
    requires ValidConfig(cfg) && WellFormed(cfg, w.nodes) && KindsKept(w.nodes, v.w.nodes)
    requires SmallVisit(cfg, q, w, va, size, target, v, w1) && Stuck(cfg, w.nodes, c) && c.tree == q.tree && c.num < va / PAGE_4KB
    ensures Stuck(cfg, v.w.nodes, c)
  {
    hide Ps64Visit, WasGroup, WellFormed, GroupComplete, FlagsOf, Mismatch, VisitMarks;
    var d := Cursor(q, va);
    var a, b := w1.nodes, v.w.nodes;
    WasGroupFull(cfg, w.nodes, a, d);
    Ps64VisitMarks(cfg, w1, d, WasGroup(cfg, w.nodes, d), size);
    OnlyMarksMove(cfg, a, b, d, WasGroup(cfg, w.nodes, d), size);
    var j :| 0 < j < c.num % 16 && Mismatch(cfg, w.nodes, c, j);
    forall i {:trigger Member(c, i)} | 0 <= i <= j ensures Member(c, i) != d { MemberFacts(c, i); }
    SameMembersSameMismatch(cfg, w.nodes, a, c, j);
    SameMembersSameMismatch(cfg, a, b, c, j);
    if InGroup(c, d) {
      MismatchNotComplete(cfg, w.nodes, c, j);
      MismatchNotComplete(cfg, a, c, j);
      SameGroupSameTest(cfg, c, d);
      NeverAGroup(cfg, w.nodes, a, b, d, size);
    }
  }

  lemma NeverAGroup(cfg: Config, n0: Forest, a: Forest, b: Forest, d: Slot, size: nat)
    requires d in a && d in b && VisitMarks(cfg, a, b, d, WasGroup(cfg, n0, d), size)
    requires !GroupComplete(cfg, n0, d) && !GroupComplete(cfg, a, d)
    ensures forall x :: x in a && x != d ==> x in b && b[x] == a[x]
  {
    hide GroupComplete, WillComplete, Marks;
  }

  lemma OtherVisitStuck(cfg: Config, q: Request, w: Walk, v: Visit, c: Slot)
    requires KindsKept(w.nodes, v.w.nodes) && OtherVisit(q, w, v) && Stuck(cfg, w.nodes, c)
    ensures Stuck(cfg, v.w.nodes, c)
  {
    hide FlagsOf, Mismatch;
    var j :| 0 < j < c.num % 16 && Mismatch(cfg, w.nodes, c, j);
    forall i {:trigger Member(c, i)} | 0 <= i < 16 ensures Member(c, i) != v.leaf.value { MemberFacts(c, i); SameTable(c, Member(c, i)); }
    assert InGroup(c, c);
    assert c == Member(c, c.num % 16);
    SameMembersSameMismatch(cfg, w.nodes, v.w.nodes, c, j);
  }

  lemma {:induction false} StuckStays(cfg: Config, q: Request, w: Walk, va: nat, size: nat, target: nat, i: nat, c: Slot)
    requires Sound(cfg, q, w.nodes) && FitsIn(cfg, va, size) && Mapping4KB(cfg, q)
    requires Stuck(cfg, w.nodes, c) && c.tree == q.tree && (size > 0 ==> c.num < va / PAGE_4KB)
    ensures Stuck(cfg, WalkFrom(cfg, q, w, va, size, target, i).0.nodes, c)
    decreases size
  {
    hide PageVisit, WalkFrom, WellFormed, LeafOf, LeafSize, BankAt, FitsIn, LeafFits, GrowsOnPath, Evolves, NextTarget, Stuck, Ps64Visit, WasGroup;
    if size == 0 {
      WalkOfNothing(cfg, q, w, va, target, i);
    } else {
      var v := PageVisit(cfg, q, w, va, size, target, InfoAt(q, i));
      TurnFacts(cfg, q, w, va, size, target, InfoAt(q, i));
      WalkTurn(cfg, q, w, va, size, target, i);
      VisitKeepsKinds(cfg, q, w, va, v);
      if v.pageSize == PAGE_4KB {
        var w1 := PageVisitSmall(cfg, q, w, va, size, target, InfoAt(q, i));
        SmallVisitStuck(cfg, q, w, va, size, target, v, w1, c);
      } else {
        PageVisitOther(cfg, q, w, va, size, target, InfoAt(q, i));
        OtherVisitStuck(cfg, q, w, v, c);
      }
      var step := PageStep(v.pageSize, va, size);
      PageIndexMonotone(va, va + step);
      StuckStays(cfg, q, Report(v, va, size, BankAt(q, va)), va + step, size - step, NextTarget(v, va, size), i + 1, c);
    }
  }

  /** The wrong guess: the first entry is marked although its group cannot be completed. */
  lemma MisjudgedSticks(cfg: Config, q: Request, w: Walk, va: nat, size: nat, target: nat, v: Visit, w1: Walk)
    requires ValidConfig(cfg) && WellFormed(cfg, w.nodes) && KindsKept(w.nodes, v.w.nodes)
    requires SmallVisit(cfg, q, w, va, size, target, v, w1) && va % PAGE_4KB == 0 && size > 0
    requires Uniform(cfg, q, w.nodes, va, size)
    requires var c := Cursor(q, va); Misjudged(cfg, q, w.nodes, c, size, target, c.num % 16)
    ensures Stuck(cfg, v.w.nodes, Cursor(q, va))
  {
    hide Ps64Visit, WasGroup, WellFormed, FlagsOf, VisitMarks, WillFill, Match;
    var c := Cursor(q, va);
    var a, b := w1.nodes, v.w.nodes;
    var k := c.num % 16;
    if c in w.nodes { ParentKept(cfg, w.nodes, c); }
    PlacedMatches(cfg, q, w, va, size, target, v, w1);
    MatchesMove(cfg, q, w.nodes, a, c, target);
    var j :| 0 <= j < k && !Match(cfg, q, w.nodes, c, target, j);
    assert j > 0;
    NoMatchNoPair(cfg, q, w.nodes, c, target, j);
    NoMatchNoPair(cfg, q, a, c, target, j);
    MismatchNotComplete(cfg, w.nodes, c, j);
    MismatchNotComplete(cfg, a, c, j);
    WasGroupFull(cfg, w.nodes, a, c);
    Ps64VisitMarks(cfg, w1, c, WasGroup(cfg, w.nodes, c), size);
    NeverAGroup(cfg, w.nodes, a, b, c, size);
    LookAhead(cfg, q, a, c, size, target);
    OnlyMarksMove(cfg, a, b, c, WasGroup(cfg, w.nodes, c), size);
    MarkedByGuess(cfg, w.nodes, a, b, c, size);
    SameMembersSameMismatch(cfg, a, b, c, j);
  }

  lemma MarkedByGuess(cfg: Config, n0: Forest, a: Forest, b: Forest, c: Slot, size: nat)
    requires c in a && c in b && VisitMarks(cfg, a, b, c, WasGroup(cfg, n0, c), size)
    requires !GroupComplete(cfg, n0, c) && !GroupComplete(cfg, a, c) && WillComplete(cfg, a, c, size)
    ensures b[c].ps64
  {
    hide GroupComplete, WillComplete, Marks;
  }

  lemma NoMatchNoPair(cfg: Config, q: Request, nodes: Forest, c: Slot, target: nat, j: nat)
    requires Match(cfg, q, nodes, c, target, 0) && !Match(cfg, q, nodes, c, target, j)
    ensures Mismatch(cfg, nodes, c, j)
  {
    hide FlagsOf;
  }

  /** A 4KB mapping of a page-aligned range keeps every PS64 promise if and only if its look-ahead does not misjudge the
      group the range starts in. In particular it does whenever the range starts on a 64KB boundary. */
  lemma MappingKeepsGroupsExactly(cfg: Config, q: Request, nodes: Forest, mem: PhysicalMemory.Physical, target: nat)
    requires Sound(cfg, q, nodes) && FitsIn(cfg, q.gfx, q.size) && Mapping4KB(cfg, q) && q.gfx % PAGE_4KB == 0
    requires GroupsIntact(cfg, nodes) && Uniform(cfg, q, nodes, q.gfx, q.size)
    ensures var c := Cursor(q, q.gfx);
      GroupsIntact(cfg, WalkMemory(cfg, q, nodes, mem, target).0.nodes)
      <==> q.size == 0 || !Misjudged(cfg, q, nodes, c, q.size, target, c.num % 16)
    ensures q.gfx % PAGE_64KB == 0 ==> GroupsIntact(cfg, WalkMemory(cfg, q, nodes, mem, target).0.nodes)
  {
    hide PageVisit, WalkFrom, WellFormed, LeafOf, LeafSize, BankAt, FitsIn, LeafFits, GrowsOnPath, Evolves, NextTarget, Stuck, Ps64Visit, WasGroup,
         Progress, GroupsIntact, Uniform, Misjudged;
    var w := Start(q.tree, nodes, mem);
    var c := Cursor(q, q.gfx);
    FirstOfGroup(cfg, q, nodes, c, q.size, target);
    if q.size == 0 {
      WalkOfNothing(cfg, q, w, q.gfx, target, 0);
    } else if !Misjudged(cfg, q, nodes, c, q.size, target, c.num % 16) {
      FreshGroup(cfg, q, nodes, c, q.size, target);
      WalkKeepsGroups(cfg, q, w, q.gfx, q.size, target, 0, c.num % 16);
    } else {
      var v := PageVisit(cfg, q, w, q.gfx, q.size, target, InfoAt(q, 0));
      TurnFacts(cfg, q, w, q.gfx, q.size, target, InfoAt(q, 0));
      WalkTurn(cfg, q, w, q.gfx, q.size, target, 0);
      VisitKeepsKinds(cfg, q, w, q.gfx, v);
      MisjudgedIsSmall(cfg, q, w, q.gfx, q.size, target, v);
      var w1 := PageVisitSmall(cfg, q, w, q.gfx, q.size, target, InfoAt(q, 0));
      MisjudgedSticks(cfg, q, w, q.gfx, q.size, target, v, w1);
      var step := PageStep(v.pageSize, q.gfx, q.size);
      PageByPage(q.gfx, q.size);
      CursorMoves(q, q.gfx);
      StuckStays(cfg, q, Report(v, q.gfx, q.size, BankAt(q, q.gfx)), q.gfx + step, q.size - step, NextTarget(v, q.gfx, q.size), 1, c);
      StuckNotIntact(cfg, WalkMemory(cfg, q, nodes, mem, target).0.nodes, c);
    }
  }

  lemma FirstOfGroup(cfg: Config, q: Request, nodes: Forest, c: Slot, size: nat, target: nat)
    ensures q.gfx % PAGE_64KB == 0 && c == Cursor(q, q.gfx) ==> !Misjudged(cfg, q, nodes, c, size, target, c.num % 16)
  {
  }

  lemma MisjudgedIsSmall(cfg: Config, q: Request, w: Walk, va: nat, size: nat, target: nat, v: Visit)
    requires ValidConfig(cfg) && WellFormed(cfg, w.nodes) && Visited(cfg, q, w, va, v) && Mapping4KB(cfg, q)
    requires Misjudged(cfg, q, w.nodes, Cursor(q, va), size, target, Cursor(q, va).num % 16)
    ensures v.pageSize == PAGE_4KB
  {
    hide WellFormed, WillFill, Match, LeafSlot, GrowsOnPath;
    SpanStep(va, 0);
    assert Parent(Cursor(q, va)) == TableSlot(q.tree, 1, va);
    LeafSlotParent(cfg, q.tree, Pte4KB, va);
    LeafSlotLevel(cfg, q.tree, Pte4KB, va);
  }

  // ---- what a mark means to the hardware ----

  /** Reading the whole 64KB page through any one marked entry gives every byte the address the tables give it. */
  lemma MarkedEntryServesGroup(cfg: Config, nodes: Forest, s: Slot, x: nat)
    requires WellFormed(cfg, nodes) && ValidConfig(cfg) && GroupsIntact(cfg, nodes) && s in nodes && s.level == 0 && nodes[s].ps64
    requires x / PAGE_64KB == s.num / 16
    ensures Translate(cfg, nodes, s.tree, x) == Some(Target(RoundDown(nodes[s].phys, PAGE_64KB) + x % PAGE_64KB, nodes[s].bank != 0))
  {
    hide WellFormed, GroupComplete, LeafSlot, FlagsOf, Span, RoundDown, Translate, GroupBase;
    assert MarkKept(cfg, nodes, s) && InGroup(s, s);
    var t := Slot(s.tree, 0, x / PAGE_4KB);
    PageOfGroup(x);
    GroupFrames(cfg, nodes, s, s.num % 16);
    GroupFrames(cfg, nodes, s, t.num % 16);
    OwnMember(s, s);
    OwnMember(s, t);
    SameTable(s, t);
    SmallTranslate(cfg, nodes, s.tree, x);
    LeafUnderTable(cfg, nodes, s);
    LeafUnderTable(cfg, nodes, t);
    SameFlagsSameBank(cfg, nodes[s], nodes[t]);
    OffsetInGroup(nodes[Member(s, 0)].phys, s.num % 16, x);
  }

  lemma OwnMember(s: Slot, t: Slot)
    requires InGroup(s, t) && s.level == 0
    ensures t == Member(s, t.num % 16)
  {
  }

  /** The lookup of an address under a 4KB PTE. */
  lemma SmallTranslate(cfg: Config, nodes: Forest, tree: nat, x: nat)
    requires var t := Slot(tree, 0, x / PAGE_4KB); t in nodes && Under4KB(nodes, tree, t)
    ensures var t := Slot(tree, 0, x / PAGE_4KB);
      Translate(cfg, nodes, tree, x) == Some(Target(nodes[t].phys + x % PAGE_4KB, nodes[t].bank != 0))
  {
    hide LeafSlot;
    SmallLeafSlot(cfg, tree, x);
    LeafSlotParent(cfg, tree, Pte4KB, x);
  }

  lemma PageOfGroup(x: nat)
    ensures x / PAGE_4KB / 16 == x / PAGE_64KB
    ensures x % PAGE_64KB == x / PAGE_4KB % 16 * PAGE_4KB + x % PAGE_4KB
  {
    var n := x / PAGE_4KB;
    DivisionUnique(x, PAGE_64KB, n / 16, n % 16 * PAGE_4KB + x % PAGE_4KB);
  }

  lemma GroupFrames(cfg: Config, nodes: Forest, s: Slot, i: nat)
    requires GroupComplete(cfg, nodes, s) && i < 16
    ensures Member(s, i) in nodes && nodes[Member(s, 0)].phys % PAGE_64KB == 0
    ensures Member(s, 0) in nodes && nodes[Member(s, i)].phys == nodes[Member(s, 0)].phys + i * PAGE_4KB
    ensures FlagsOf(cfg, nodes[Member(s, i)]) == FlagsOf(cfg, nodes[Member(s, 0)])
  {
    hide FlagsOf;
  }

  lemma SameFlagsSameBank(cfg: Config, m: Node, n: Node)
    requires m.kind.Page? && n.kind.Page? && FlagsOf(cfg, m) == FlagsOf(cfg, n)
    ensures (m.bank != 0) == (n.bank != 0)
  {
  }

  lemma OffsetInGroup(base: nat, i: nat, x: nat)
    requires base % PAGE_64KB == 0 && i < 16
    ensures RoundDown(base + i * PAGE_4KB, PAGE_64KB) == base
  {
    DivisionUnique(base + i * PAGE_4KB, PAGE_64KB, base / PAGE_64KB, i * PAGE_4KB);
  }

  // ---- a range for which the look-ahead is wrong ----

  function OneLeafForest(phys: nat): Forest {
    map[Slot(0, 5, 0) := Node(Pml5, 0x1000, 0, NO_ATTRIBUTES, 0, false, false),
        Slot(0, 4, 0) := Node(Pml4, 0x2000, 0, NO_ATTRIBUTES, 0, false, false),
        Slot(0, 3, 0) := Node(Pdp, 0x3000, 0, NO_ATTRIBUTES, 0, false, false),
        Slot(0, 2, 0) := Node(Pde, 0x4000, 0, NO_ATTRIBUTES, 0, false, false),
        Slot(0, 1, 0) := Node(Pte4KB, 0x5000, 0, NO_ATTRIBUTES, 0, false, false),
        Slot(0, 0, 0) := Node(Page, phys, 0, NO_ATTRIBUTES, 0, false, false)]
  }

  lemma OneLeafWellFormed(cfg: Config, phys: nat)
    requires cfg.levels == 5
    ensures WellFormed(cfg, OneLeafForest(phys))
  {
    var nodes := OneLeafForest(phys);
    forall s | s in nodes ensures Placed(cfg, nodes, s) {}
  }

  /** Page 3 asked for at 0x13000, page 0 at 0x10000, nothing in between. */
  lemma GapMisjudged(cfg: Config, q: Request, c: Slot)
    requires q.tree == 0 && q.banks == 0 && q.attributes == NO_ATTRIBUTES && c == Slot(0, 0, 3)
    ensures Misjudged(cfg, q, OneLeafForest(0x10000), c, 0xD000, 0x13000, 3)
  {
    var nodes := OneLeafForest(0x10000);
    assert Member(c, 0) == Slot(0, 0, 0) && Member(c, 1) == Slot(0, 0, 1);
    assert Match(cfg, q, nodes, c, 0x13000, 0) && !Match(cfg, q, nodes, c, 0x13000, 1);
  }

  /** Page 0 is mapped to 0x10000; mapping pages 3..15 to 0x13000.. marks them PS64 while pages 1 and 2 have no entry. */
  lemma LookAheadCanBeWrong(extraBits: Attributes -> nat, mem: PhysicalMemory.Physical)
    ensures var cfg := Config(5, false, true, extraBits);
      var q := Request(0, 0x3000, 0xD000, 0, PAGE_4KB, NO_ATTRIBUTES, Reserve, [], true);
      var nodes := OneLeafForest(0x10000);
      && Sound(cfg, q, nodes) && FitsIn(cfg, q.gfx, q.size) && GroupsIntact(cfg, nodes) && Uniform(cfg, q, nodes, q.gfx, q.size)
      && !GroupsIntact(cfg, WalkMemory(cfg, q, nodes, mem, 0x13000).0.nodes)
  {
    hide WalkMemory, WellFormed, GroupsIntact, Misjudged, Uniform;
    var cfg := Config(5, false, true, extraBits);
    var q := Request(0, 0x3000, 0xD000, 0, PAGE_4KB, NO_ATTRIBUTES, Reserve, [], true);
    OneLeafWellFormed(cfg, 0x10000);
    OneLeafUnmarked(cfg, q);
    GapMisjudged(cfg, q, Cursor(q, q.gfx));
    MappingKeepsGroupsExactly(cfg, q, OneLeafForest(0x10000), mem, 0x13000);
  }

  lemma OneLeafUnmarked(cfg: Config, q: Request)
    requires q.attributes == NO_ATTRIBUTES
    ensures GroupsIntact(cfg, OneLeafForest(0x10000)) && Uniform(cfg, q, OneLeafForest(0x10000), q.gfx, q.size)
  {
    hide GroupOk;
  }
}
