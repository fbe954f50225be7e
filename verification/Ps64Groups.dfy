/** PS64 marks promise the hardware one 64KB page; when mapping a range keeps that promise. */
module Ps64Groups {
  import opened Wrappers
  import opened Arithmetic
  import opened PageTables
  import opened WalkModel
  import opened TreeFacts
  import opened WalkLookup
  import opened WalkStream
  import opened MapOverride
  import PhysicalMemory

  ghost predicate NoneMarked(nodes: Forest, s: Slot) {
    forall x :: x in nodes && InGroup(s, x) ==> !nodes[x].ps64
  }

  ghost predicate AllMarked(nodes: Forest, s: Slot) {
    forall i {:trigger Member(s, i)} :: 0 <= i < 16 ==> Member(s, i) in nodes && nodes[Member(s, i)].ps64
  }

  ghost predicate GroupOk(cfg: Config, nodes: Forest, s: Slot) {
    NoneMarked(nodes, s) || (AllMarked(nodes, s) && GroupComplete(cfg, nodes, s))
  }

  ghost predicate MarkKept(cfg: Config, nodes: Forest, s: Slot)
    requires s in nodes
  {
    s.level == 0 && nodes[s].ps64 ==> Under4KB(nodes, s.tree, s) && GroupOk(cfg, nodes, s)
  }

  /** A marked entry belongs to sixteen marked 4KB entries of one 64KB frame with equal flags. */
  ghost predicate GroupsIntact(cfg: Config, nodes: Forest) {
    forall s :: s in nodes ==> MarkKept(cfg, nodes, s)
  }

  // ---- what a visit changes at the lowest level ----

  ghost predicate LowSame(a: Forest, b: Forest) {
    forall x: Slot :: x.level == 0 ==> (x in a <==> x in b) && (x in a ==> b[x] == a[x])
  }

  ghost predicate LowSameBut(a: Forest, b: Forest, s: Slot) {
    forall x: Slot :: x.level == 0 && x != s ==> (x in a <==> x in b) && (x in a ==> b[x] == a[x])
  }

  /** Members i..15 marked, or unmarked, and nothing else touched. */
  ghost predicate Marks(a: Forest, b: Forest, s: Slot, i: nat, mark: bool) {
    && b.Keys == a.Keys
    && forall x :: x in a ==>
         if InGroup(s, x) && x.num % 16 >= i then b[x] == a[x].(ps64 := mark, pending := b[x].pending) else b[x] == a[x]
  }

  lemma MarksStep(a: Forest, b: Forest, c: Forest, s: Slot, i: nat, mark: bool)
    requires i < 16 && Member(s, i) in a && b.Keys == a.Keys
    requires b == a[Member(s, i) := a[Member(s, i)].(ps64 := mark, pending := b[Member(s, i)].pending)]
    requires Marks(b, c, s, i + 1, mark)
    ensures Marks(a, c, s, i, mark)
  {
    MemberFacts(s, i);
  }

  lemma {:induction false} UpgradeMarks(cfg: Config, w: Walk, s: Slot, i: nat)
    requires i <= 16 && forall j {:trigger Member(s, j)} :: i <= j < 16 ==> Member(s, j) in w.nodes
    ensures Marks(w.nodes, UpgradeFrom(cfg, w, s, i).nodes, s, i, true)
    decreases 16 - i
  {
    hide Marks;
    if i < 16 {
      var m := Member(s, i);
      UpgradeMarks(cfg, Upgrade(cfg, w, m), s, i + 1);
      assert Upgrade(cfg, w, m).nodes == w.nodes[m := w.nodes[m].(ps64 := true, pending := Upgrade(cfg, w, m).nodes[m].pending)];
      MarksStep(w.nodes, Upgrade(cfg, w, m).nodes, UpgradeFrom(cfg, w, s, i).nodes, s, i, true);
    } else {
      NoMarks(w.nodes, s, true);
    }
  }

  lemma NoMarks(a: Forest, s: Slot, mark: bool)
    ensures Marks(a, a, s, 16, mark)
  {
  }

  lemma {:induction false} DowngradeMarks(cfg: Config, w: Walk, s: Slot, i: nat)
    requires i <= 16 && forall j {:trigger Member(s, j)} :: i <= j < 16 ==> Member(s, j) in w.nodes
    ensures Marks(w.nodes, DowngradeFrom(cfg, w, s, i).nodes, s, i, false)
    decreases 16 - i
  {
    hide Marks;
    if i < 16 {
      var m := Member(s, i);
      DowngradeMarks(cfg, Downgrade(cfg, w, m), s, i + 1);
      MarksStep(w.nodes, Downgrade(cfg, w, m).nodes, DowngradeFrom(cfg, w, s, i).nodes, s, i, false);
    } else {
      NoMarks(w.nodes, s, false);
    }
  }

  /** The three outcomes of a visit to a 4KB entry: the group is complete, it has just been broken, or the walk looks ahead. */
  ghost predicate VisitMarks(cfg: Config, a: Forest, b: Forest, s: Slot, wasGroup: bool, size: nat)
    requires s in a && s in b
  {
    if GroupComplete(cfg, a, s) then Marks(a, b, s, 0, true)
    else if wasGroup then Marks(a, b, s, 0, false)
    else b == a[s := a[s].(ps64 := a[s].ps64 || WillComplete(cfg, a, s, size), pending := b[s].pending)]
  }

  lemma Ps64VisitMarks(cfg: Config, w: Walk, s: Slot, wasGroup: bool, size: nat)
    requires s in w.nodes && s.level == 0
    requires wasGroup ==> forall j {:trigger Member(s, j)} :: 0 <= j < 16 ==> Member(s, j) in w.nodes
    ensures VisitMarks(cfg, w.nodes, Ps64Visit(cfg, w, s, wasGroup, size).nodes, s, wasGroup, size)
  {
    hide UpgradeFrom, DowngradeFrom, Marks, WillComplete, FlagsOf;
    if GroupComplete(cfg, w.nodes, s) {
      UpgradeMarks(cfg, w, s, 0);
    } else if wasGroup {
      DowngradeMarks(cfg, w, s, 0);
    } else {
      assert Ps64Visit(cfg, w, s, wasGroup, size) == Speculate(cfg, w, s, size);
    }
  }

  lemma TablesDownLow(cfg: Config, q: Request, w: Walk, va: nat, level: nat)
    requires level <= 4
    ensures LowSame(w.nodes, TablesDown(cfg, q, w, va, level).0.nodes)
    decreases level
  {
    hide PhysicalMemory.Reserve, Span;
    if level >= 2 {
      var s := TableSlot(q.tree, level, va);
      if s in w.nodes || !q.mode.Expect? {
        var w1 := if s in w.nodes then w else AddTable(w, s, TableKind(level));
        TablesDownLow(cfg, q, PlainVisit(cfg, w1, s, s !in w.nodes || q.mapping), va, level - 1);
      }
    }
  }

  /** A mapping visit to a 4KB entry: the leaf is put in place, then the PS64 protocol runs. */
  ghost predicate SmallVisit(cfg: Config, q: Request, w: Walk, va: nat, size: nat, target: nat, v: Visit, w1: Walk) {
    var s := Slot(q.tree, 0, va / PAGE_4KB);
    && v.leaf == Some(s) && s in w1.nodes && v.target == target
    && LowSameBut(w.nodes, w1.nodes, s)
    && w1.nodes[s].kind.Page? && w1.nodes[s].phys == target && w1.nodes[s].bank == q.banks
    && w1.nodes[s].attributes == (if s in w.nodes then w.nodes[s].attributes else q.attributes)
    && w1.nodes[s].ps64 == (s in w.nodes && w.nodes[s].ps64)
    && v.w == Ps64Visit(cfg, w1, s, WasGroup(cfg, w.nodes, s), size)
    && Under4KB(v.w.nodes, q.tree, s)
  }

  lemma PteStepSmall(cfg: Config, q: Request, w: Walk, va: nat, size: nat, bank: nat, target: nat, info: PageInfo) returns (w1: Walk)
    requires Ready(cfg, q, w.nodes, va) && q.mapping && q.mode.Reserve? && Ps64Applicable(cfg, q) && bank == q.banks
    requires TableSlot(q.tree, 1, va) in w.nodes && w.nodes[TableSlot(q.tree, 1, va)].kind.Pte4KB?
    ensures SmallVisit(cfg, q, w, va, size, target, PteStep(cfg, q, w, va, size, bank, target, info), w1)
    ensures PteStep(cfg, q, w, va, size, bank, target, info).pageSize == PAGE_4KB
  {
    hide Ps64Visit, LeafSlot, WellFormed, PhysicalMemory.Reserve, WasGroup;
    var s := Slot(q.tree, 0, va / PAGE_4KB);
    SmallLeafSlot(cfg, q.tree, va);
    LeafSlotParent(cfg, q.tree, Pte4KB, va);
    w1 := PlaceLeaf(q, w, s, Page, PAGE_4KB, bank, target, info);
    if s in w.nodes { LeafUnderTable(cfg, w.nodes, s); }
    Ps64VisitEvolves(cfg, w1, s, WasGroup(cfg, w.nodes, s), size);
    assert Parent(s) in w1.nodes;
  }

  lemma WasGroupLow(cfg: Config, a: Forest, b: Forest, s: Slot)
    requires LowSame(a, b)
    ensures WasGroup(cfg, a, s) == WasGroup(cfg, b, s)
  {
    hide FlagsOf;
  }

  lemma PdeStepSmall(cfg: Config, q: Request, w: Walk, va: nat, size: nat, bank: nat, target: nat, info: PageInfo) returns (w1: Walk)
    requires Ready(cfg, q, w.nodes, va) && q.mapping && q.mode.Reserve? && Ps64Applicable(cfg, q) && bank == q.banks
    requires TableSlot(q.tree, 2, va) in w.nodes
    requires PdeStep(cfg, q, w, va, size, bank, target, info).pageSize == PAGE_4KB
    ensures SmallVisit(cfg, q, w, va, size, target, PdeStep(cfg, q, w, va, size, bank, target, info), w1)
  {
    hide PteStep, PlainVisit, AddTable, WellFormed, Grown, Span, PhysicalMemory.Reserve, Ps64Visit, WasGroup;
    var s := TableSlot(q.tree, 1, va);
    ChildIsTableSlot(cfg, q.tree, 1, va);
    TableAbove(cfg, w.nodes, TableSlot(q.tree, 2, va));
    GrownReflexive(cfg, q.tree, va, w.nodes);
    if s in w.nodes {
      PdeKind(cfg, w.nodes, s);
      SmallPteOnly(cfg, q, PlainVisit(cfg, w, s, q.mapping), va, size, bank, target, info);
      w1 := PteStepSmall(cfg, q, PlainVisit(cfg, w, s, q.mapping), va, size, bank, target, info);
    } else {
      AddTableFacts(cfg, w, va, s, Pte4KB);
      var w2 := PlainVisit(cfg, AddTable(w, s, Pte4KB), s, true);
      GrownStaysReady(cfg, q, va, w.nodes, w2.nodes);
      w1 := PteStepSmall(cfg, q, w2, va, size, bank, target, info);
      AddTableLow(w, s, Pte4KB);
      WasGroupLow(cfg, w.nodes, w2.nodes, Slot(q.tree, 0, va / PAGE_4KB));
    }
  }

  lemma AddTableLow(w: Walk, s: Slot, kind: Kind)
    requires s.level > 0
    ensures LowSame(w.nodes, AddTable(w, s, kind).nodes)
  {
    hide PhysicalMemory.Reserve;
  }

  lemma SmallPteOnly(cfg: Config, q: Request, w: Walk, va: nat, size: nat, bank: nat, target: nat, info: PageInfo)
    requires q.mapping && TableSlot(q.tree, 1, va) in w.nodes
    ensures PteStep(cfg, q, w, va, size, bank, target, info).pageSize == PteSize(w.nodes[TableSlot(q.tree, 1, va)].kind)
  {
    hide PlaceLeaf, VisitLeaf, LeafSlot;
  }

  lemma PageVisitSmall(cfg: Config, q: Request, w: Walk, va: nat, size: nat, target: nat, info: PageInfo) returns (w1: Walk)
    requires Ready(cfg, q, w.nodes, va) && q.mapping && q.mode.Reserve? && Ps64Applicable(cfg, q)
    requires PageVisit(cfg, q, w, va, size, target, info).pageSize == PAGE_4KB
    ensures SmallVisit(cfg, q, w, va, size, target, PageVisit(cfg, q, w, va, size, target, info), w1)
  {
    hide PdeStep, TablesDown, Grown, WellFormed, Span, Ps64Visit, WasGroup;
    RootIsTableSlot(cfg, q.tree, va);
    TablesDownFacts(cfg, q, w, va, cfg.levels - 1);
    var (w0, found) := TablesDown(cfg, q, w, va, cfg.levels - 1);
    GrownStaysReady(cfg, q, va, w.nodes, w0.nodes);
    TablesDownLow(cfg, q, w, va, cfg.levels - 1);
    w1 := PdeStepSmall(cfg, q, w0, va, size, BankAt(q, va), target, info);
    WasGroupLow(cfg, w.nodes, w0.nodes, Slot(q.tree, 0, va / PAGE_4KB));
  }

  /** A page of another size touches at most one lowest-level slot, and no mark. */
  ghost predicate OtherVisit(q: Request, w: Walk, v: Visit) {
    && v.leaf.Some? && LowSameBut(w.nodes, v.w.nodes, v.leaf.value)
    && (v.leaf.value.level == 0 ==>
          && Parent(v.leaf.value) in v.w.nodes && v.w.nodes[Parent(v.leaf.value)].kind.Pte64KB?
          && v.leaf.value in v.w.nodes
          && v.w.nodes[v.leaf.value].ps64 == (v.leaf.value in w.nodes && w.nodes[v.leaf.value].ps64)
          && v.w.nodes[v.leaf.value].attributes == (if v.leaf.value in w.nodes then w.nodes[v.leaf.value].attributes else q.attributes))
  }

  lemma PteStepOther(cfg: Config, q: Request, w: Walk, va: nat, size: nat, bank: nat, target: nat, info: PageInfo)
    requires Ready(cfg, q, w.nodes, va) && q.mapping && q.mode.Reserve?
    requires TableSlot(q.tree, 1, va) in w.nodes && w.nodes[TableSlot(q.tree, 1, va)].kind.Pte64KB?
    ensures OtherVisit(q, w, PteStep(cfg, q, w, va, size, bank, target, info))
  {
    hide LeafSlot, WellFormed, PhysicalMemory.Reserve;
    LeafSlotParent(cfg, q.tree, Pte64KB, va);
    LeafSlotLevel(cfg, q.tree, Pte64KB, va);
  }

  lemma PdeStepOther(cfg: Config, q: Request, w: Walk, va: nat, size: nat, bank: nat, target: nat, info: PageInfo)
    requires Ready(cfg, q, w.nodes, va) && q.mapping && q.mode.Reserve? && TableSlot(q.tree, 2, va) in w.nodes
    requires PdeStep(cfg, q, w, va, size, bank, target, info).pageSize != PAGE_4KB && q.pageSize == PAGE_4KB
    ensures OtherVisit(q, w, PdeStep(cfg, q, w, va, size, bank, target, info))
  {
    hide PteStep, AddTable, WellFormed, Span, PhysicalMemory.Reserve;
    var s := TableSlot(q.tree, 1, va);
    if s in w.nodes {
      PdeKind(cfg, w.nodes, s);
      var w1 := PlainVisit(cfg, w, s, q.mapping);
      if !w.nodes[s].kind.Page2MB? {
        SmallPteOnly(cfg, q, w1, va, size, bank, target, info);
        PteStepOther(cfg, q, w1, va, size, bank, target, info);
      }
    } else {
      AddedKind(w, s, Pte4KB);
      var w2 := PlainVisit(cfg, AddTable(w, s, Pte4KB), s, true);
      SmallPteOnly(cfg, q, w2, va, size, bank, target, info);
    }
  }

  lemma AddedKind(w: Walk, s: Slot, kind: Kind)
    ensures s in AddTable(w, s, kind).nodes && AddTable(w, s, kind).nodes[s].kind == kind
  {
  }

  lemma PageVisitOther(cfg: Config, q: Request, w: Walk, va: nat, size: nat, target: nat, info: PageInfo)
    requires Ready(cfg, q, w.nodes, va) && q.mapping && q.mode.Reserve? && q.pageSize == PAGE_4KB
    requires PageVisit(cfg, q, w, va, size, target, info).pageSize != PAGE_4KB
    ensures OtherVisit(q, w, PageVisit(cfg, q, w, va, size, target, info))
  {
    hide PdeStep, TablesDown, Grown, WellFormed, Span;
    RootIsTableSlot(cfg, q.tree, va);
    TablesDownFacts(cfg, q, w, va, cfg.levels - 1);
    var (w0, found) := TablesDown(cfg, q, w, va, cfg.levels - 1);
    GrownStaysReady(cfg, q, va, w.nodes, w0.nodes);
    TablesDownLow(cfg, q, w, va, cfg.levels - 1);
    PdeStepOther(cfg, q, w0, va, size, BankAt(q, va), target, info);
  }
}
