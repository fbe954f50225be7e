/** A 4KB mapping keeps every PS64 promise, exactly unless the look-ahead misjudges the group it starts in. */
module Ps64Mapping {
  import opened Wrappers
  import opened Arithmetic
  import opened PageTables
  import opened WalkModel
  import opened TreeFacts
  import opened WalkLookup
  import opened WalkStream
  import opened Ps64Groups
  import PhysicalMemory

  function Cursor(q: Request, va: nat): Slot {
    Slot(q.tree, 0, va / PAGE_4KB)
  }

  /** The flags of every entry the mapping writes. */
  function FlagsAsked(cfg: Config, q: Request): Entry {
    Entry(0, q.banks != 0, false, false, false, cfg.extraBits(q.attributes))
  }

  /** Member j of the cursor's group is as the mapping would write it, the cursor c being due at `target`. */
  predicate Match(cfg: Config, q: Request, nodes: Forest, c: Slot, target: nat, j: nat) {
    var m := Member(c, j);
    m in nodes && nodes[m].phys + c.num % 16 * PAGE_4KB == target + j * PAGE_4KB && FlagsOf(cfg, nodes[m]) == FlagsAsked(cfg, q)
  }

  predicate AllMatch(cfg: Config, q: Request, nodes: Forest, c: Slot, target: nat, low: nat, high: nat) {
    forall j :: low <= j < high ==> Match(cfg, q, nodes, c, target, j)
  }

  /** The group would start on a 64KB frame boundary, and the walk is long enough to reach its end. */
  predicate WillFill(c: Slot, size: nat, target: nat) {
    var k := c.num % 16;
    target >= k * PAGE_4KB && (target - k * PAGE_4KB) % PAGE_64KB == 0 && size >= (16 - k) * PAGE_4KB
  }

  /** The look-ahead trusts member 0: it matches, the size is enough, but a member in between does not match. */
  predicate Misjudged(cfg: Config, q: Request, nodes: Forest, c: Slot, size: nat, target: nat, low: nat) {
    && Under4KB(nodes, q.tree, c) && low > 0 && WillFill(c, size, target)
    && Match(cfg, q, nodes, c, target, 0) && !AllMatch(cfg, q, nodes, c, target, 0, low)
  }

  /** Entries already there in the range carry the flags asked for. */
  ghost predicate Uniform(cfg: Config, q: Request, nodes: Forest, va: nat, size: nat) {
    forall s :: s in nodes && Under4KB(nodes, q.tree, s) && va / PAGE_4KB <= s.num && s.num * PAGE_4KB < va + size ==>
      cfg.extraBits(nodes[s].attributes) == cfg.extraBits(q.attributes)
  }

  /** Between pages: entries low..k-1 of the cursor's group have been written; the group is fine, or will be once filled. */
  ghost predicate Progress(cfg: Config, q: Request, nodes: Forest, c: Slot, size: nat, target: nat, low: nat) {
    var k := c.num % 16;
    && low <= k && c.level == 0 && c.tree == q.tree
    && (forall s :: s in nodes && !(k > low && InGroup(c, s)) ==> MarkKept(cfg, nodes, s))
    && (k > low ==>
          && Under4KB(nodes, q.tree, c) && AllMatch(cfg, q, nodes, c, target, low, k)
          && (GroupOk(cfg, nodes, c) || (WillFill(c, size, target) && AllMatch(cfg, q, nodes, c, target, 0, k))))
    && !Misjudged(cfg, q, nodes, c, size, target, low)
  }

  // ---- one 4KB page ----

  lemma Advance(cfg: Config, q: Request, nodes: Forest, c: Slot, d: Slot, size: nat, target: nat)
    requires d == c.(num := c.num + 1) && c.num % 16 < 15 && size >= PAGE_4KB && c.level == 0
    ensures WillFill(d, size - PAGE_4KB, target + PAGE_4KB) <==> WillFill(c, size, target)
    ensures forall j: nat :: Match(cfg, q, nodes, d, target + PAGE_4KB, j) <==> Match(cfg, q, nodes, c, target, j)
    ensures InGroup(c, d) && InGroup(d, c) && d.num % 16 == c.num % 16 + 1 && Parent(d) == Parent(c)
    ensures forall x :: InGroup(c, x) <==> InGroup(d, x)
  {
    hide WillFill, Match, GroupBase;
    NextEntry(c, d);
    FillAdvances(c, d, size, target);
    forall j: nat ensures Match(cfg, q, nodes, d, target + PAGE_4KB, j) <==> Match(cfg, q, nodes, c, target, j) {
      MatchAdvances(cfg, q, nodes, c, d, target, j);
    }
  }

  lemma NextEntry(c: Slot, d: Slot)
    requires d == c.(num := c.num + 1) && c.num % 16 < 15
    ensures d.num % 16 == c.num % 16 + 1 && d.num / 16 == c.num / 16 && d.num / 512 == c.num / 512
  {
    NextNumber(c.num);
  }

  lemma NextNumber(n: nat)
    requires n % 16 < 15
    ensures (n + 1) % 16 == n % 16 + 1 && (n + 1) / 16 == n / 16 && (n + 1) / 512 == n / 512
  {
    DivisionUnique(n + 1, 16, n / 16, n % 16 + 1);
    var high, low := n / 16 / 32, n / 16 % 32 * 16 + n % 16;
    assert n == high * 512 + low && low < 511;
    DivisionUnique(n, 512, high, low);
    DivisionUnique(n + 1, 512, high, low + 1);
  }

  lemma FillAdvances(c: Slot, d: Slot, size: nat, target: nat)
    requires d.num % 16 == c.num % 16 + 1 && size >= PAGE_4KB
    ensures WillFill(d, size - PAGE_4KB, target + PAGE_4KB) <==> WillFill(c, size, target)
  {
    assert target + PAGE_4KB - d.num % 16 * PAGE_4KB == target - c.num % 16 * PAGE_4KB;
  }

  lemma MatchAdvances(cfg: Config, q: Request, nodes: Forest, c: Slot, d: Slot, target: nat, j: nat)
    requires d == c.(num := c.num + 1) && d.num % 16 == c.num % 16 + 1 && d.num / 16 == c.num / 16
    ensures Match(cfg, q, nodes, d, target + PAGE_4KB, j) <==> Match(cfg, q, nodes, c, target, j)
  {
    hide FlagsOf, FlagsAsked;
    assert Member(d, j) == Member(c, j);
  }

  /** Marks do not matter to a match. */
  lemma MatchKept(cfg: Config, q: Request, a: Forest, b: Forest, c: Slot, target: nat, j: nat)
    requires j < 16 && c.level == 0
    requires forall x :: x in a && InGroup(c, x) ==> x in b && b[x] == a[x].(ps64 := b[x].ps64, pending := b[x].pending)
    requires forall x :: x in b && InGroup(c, x) ==> x in a
    ensures Match(cfg, q, a, c, target, j) == Match(cfg, q, b, c, target, j)
  {
    MemberFacts(c, j);
  }

  lemma CompleteIfAllMatch(cfg: Config, q: Request, nodes: Forest, c: Slot, size: nat, target: nat)
    requires WillFill(c, size, target) && AllMatch(cfg, q, nodes, c, target, 0, 16)
    ensures GroupComplete(cfg, nodes, c)
  {
    hide FlagsOf;
    forall i {:trigger Member(c, i)} | 0 <= i < 16
      ensures Member(c, i) in nodes && nodes[Member(c, i)].phys == nodes[Member(c, 0)].phys + i * PAGE_4KB
      ensures FlagsOf(cfg, nodes[Member(c, i)]) == FlagsOf(cfg, nodes[Member(c, 0)]) {
      assert Match(cfg, q, nodes, c, target, i) && Match(cfg, q, nodes, c, target, 0);
    }
    assert Match(cfg, q, nodes, c, target, 0);
  }

  lemma LookAhead(cfg: Config, q: Request, nodes: Forest, c: Slot, size: nat, target: nat)
    requires c in nodes && c.level == 0 && Match(cfg, q, nodes, c, target, c.num % 16)
    ensures WillComplete(cfg, nodes, c, size) <==>
      WillFill(c, size, target) && (c.num % 16 == 0 || Match(cfg, q, nodes, c, target, 0))
  {
    hide FlagsOf;
    assert Member(c, c.num % 16) == c;
  }

  /** The leaf just put in place. */
  lemma PlacedMatches(cfg: Config, q: Request, w: Walk, va: nat, size: nat, target: nat, v: Visit, w1: Walk)
    requires SmallVisit(cfg, q, w, va, size, target, v, w1) && va % PAGE_4KB == 0 && size > 0
    requires Uniform(cfg, q, w.nodes, va, size) && (Cursor(q, va) in w.nodes ==> Under4KB(w.nodes, q.tree, Cursor(q, va)))
    ensures Match(cfg, q, w1.nodes, Cursor(q, va), target, Cursor(q, va).num % 16)
  {
    hide Ps64Visit, WasGroup;
    var c := Cursor(q, va);
    assert Member(c, c.num % 16) == c;
  }

  /** The group of the page just visited, given how it was: earlier members still match, and it is fine or will be. */
  lemma GroupAfter(cfg: Config, q: Request, n0: Forest, a: Forest, b: Forest, c: Slot, size: nat, target: nat, low: nat)
    requires c in a && c in b && c.level == 0 && LowSameBut(n0, a, c) && a[c].ps64 == (c in n0 && n0[c].ps64)
    requires VisitMarks(cfg, a, b, c, WasGroup(cfg, n0, c), size)
    requires Match(cfg, q, a, c, target, c.num % 16) && low <= c.num % 16
    requires AllMatch(cfg, q, n0, c, target, low, c.num % 16)
    requires GroupOk(cfg, n0, c) || (WillFill(c, size, target) && AllMatch(cfg, q, n0, c, target, 0, c.num % 16))
    requires low > 0 && WillFill(c, size, target) && Match(cfg, q, n0, c, target, 0) ==> AllMatch(cfg, q, n0, c, target, 0, low)
    ensures AllMatch(cfg, q, b, c, target, low, c.num % 16 + 1)
    ensures forall j :: 0 <= j < 16 && j != c.num % 16 ==> Match(cfg, q, b, c, target, j) == Match(cfg, q, n0, c, target, j)
    ensures GroupOk(cfg, b, c) ||
      (c.num % 16 < 15 && WillFill(c, size, target) && AllMatch(cfg, q, b, c, target, 0, c.num % 16 + 1))
  {
    hide FlagsOf, GroupComplete, WasGroup, WillComplete, Match, WillFill, NoneMarked, AllMarked;
    var k := c.num % 16;
    MatchesMove(cfg, q, n0, a, c, target);
    OnlyMarksMove(cfg, a, b, c, WasGroup(cfg, n0, c), size);
    forall j | 0 <= j < 16 ensures Match(cfg, q, a, c, target, j) == Match(cfg, q, b, c, target, j) {
      MatchKept(cfg, q, a, b, c, target, j);
    }
    if GroupComplete(cfg, a, c) {
      CompleteGroupMarked(cfg, a, b, c);
    } else if WasGroup(cfg, n0, c) {
      BrokenGroupUnmarked(a, b, c);
    } else {
      LookAhead(cfg, q, a, c, size, target);
      if AllMatch(cfg, q, a, c, target, 0, 16) && WillFill(c, size, target) { CompleteIfAllMatch(cfg, q, a, c, size, target); }
      if !WillComplete(cfg, a, c, size) {
        StillUnmarked(cfg, n0, a, b, c);
      }
    }
  }

  lemma MatchesMove(cfg: Config, q: Request, n0: Forest, a: Forest, c: Slot, target: nat)
    requires LowSameBut(n0, a, c) && c.level == 0
    ensures forall j {:trigger Match(cfg, q, a, c, target, j)} {:trigger Match(cfg, q, n0, c, target, j)} ::
      0 <= j < 16 && j != c.num % 16 ==> Match(cfg, q, a, c, target, j) == Match(cfg, q, n0, c, target, j)
  {
    hide FlagsOf;
    forall j | 0 <= j < 16 && j != c.num % 16 ensures Member(c, j) != c { MemberFacts(c, j); }
  }

  lemma OnlyMarksMove(cfg: Config, a: Forest, b: Forest, c: Slot, wasGroup: bool, size: nat)
    requires c in a && c in b && VisitMarks(cfg, a, b, c, wasGroup, size)
    ensures b.Keys == a.Keys && forall x :: x in a ==> b[x] == a[x].(ps64 := b[x].ps64, pending := b[x].pending)
    ensures c.level == 0 ==> forall x :: x in a && !InGroup(c, x) ==> b[x] == a[x]
  {
    hide GroupComplete, WillComplete;
  }

  lemma CompleteGroupMarked(cfg: Config, a: Forest, b: Forest, c: Slot)
    requires GroupComplete(cfg, a, c) && Marks(a, b, c, 0, true)
    ensures AllMarked(b, c) && GroupComplete(cfg, b, c)
  {
    hide FlagsOf;
    GroupIgnoresMarks(cfg, a, b, c);
    forall i | 0 <= i < 16 ensures InGroup(c, Member(c, i)) { MemberFacts(c, i); }
  }

  lemma BrokenGroupUnmarked(a: Forest, b: Forest, c: Slot)
    requires Marks(a, b, c, 0, false)
    ensures NoneMarked(b, c)
  {
  }

  lemma StillUnmarked(cfg: Config, n0: Forest, a: Forest, b: Forest, c: Slot)
    requires c in a && c.level == 0 && LowSameBut(n0, a, c) && a[c].ps64 == (c in n0 && n0[c].ps64)
    requires c in b && b == a[c := a[c].(ps64 := a[c].ps64, pending := b[c].pending)]
    requires GroupOk(cfg, n0, c) && !WasGroup(cfg, n0, c)
    ensures NoneMarked(b, c)
  {
    hide GroupComplete;
    if AllMarked(n0, c) { assert Member(c, 0) in n0; }
  }

  /** Groups elsewhere are as they were. */
  lemma OtherGroupKept(cfg: Config, a: Forest, b: Forest, s: Slot)
    requires s in a && s in b && s.level == 0 && b[s] == a[s] && MarkKept(cfg, a, s)
    requires Parent(s) in a ==> Parent(s) in b && b[Parent(s)].kind == a[Parent(s)].kind
    requires forall x :: InGroup(s, x) ==> (x in a <==> x in b) && (x in a ==> b[x] == a[x])
    ensures MarkKept(cfg, b, s)
  {
    hide FlagsOf;
    forall i | 0 <= i < 16 ensures InGroup(s, Member(s, i)) { MemberFacts(s, i); }
  }

  lemma GroupMateKept(cfg: Config, nodes: Forest, c: Slot, s: Slot)
    requires InGroup(c, s) && c.level == 0 && s in nodes && GroupOk(cfg, nodes, c) && Under4KB(nodes, c.tree, c)
    ensures MarkKept(cfg, nodes, s)
  {
    hide GroupOk;
    SameGroupOk(cfg, nodes, c, s);
    SameTable(c, s);
  }

  // ---- turns of the walk ----

  lemma IntactGroup(cfg: Config, nodes: Forest, c: Slot)
    requires c.level == 0 && forall s :: s in nodes && InGroup(c, s) ==> MarkKept(cfg, nodes, s)
    ensures GroupOk(cfg, nodes, c)
  {
    hide GroupOk, InGroup;
    if s :| s in nodes && InGroup(c, s) && nodes[s].ps64 {
      assert MarkKept(cfg, nodes, s);
      InGroupLevel(c, s);
      SameGroupOk(cfg, nodes, c, s);
    } else {
      UnmarkedGroupOk(cfg, nodes, c);
    }
  }

  lemma NothingUnderAbsent(cfg: Config, q: Request, nodes: Forest, c: Slot, target: nat)
    requires ValidConfig(cfg) && WellFormed(cfg, nodes) && c.level == 0 && Match(cfg, q, nodes, c, target, 0)
    ensures Parent(c) in nodes
  {
    hide WellFormed;
    MemberFacts(c, 0);
    SameTable(c, Member(c, 0));
    ParentKept(cfg, nodes, Member(c, 0));
  }

  /** The kinds of the tables a visit finds are the kinds it leaves. */
  ghost predicate KindsKept(a: Forest, b: Forest) {
    forall s :: s in a ==> s in b && b[s].kind == a[s].kind
  }

  lemma SmallTurnGroup(cfg: Config, q: Request, w: Walk, va: nat, size: nat, target: nat, v: Visit, w1: Walk, low: nat)
    requires ValidConfig(cfg) && WellFormed(cfg, w.nodes) && KindsKept(w.nodes, v.w.nodes)
    requires SmallVisit(cfg, q, w, va, size, target, v, w1) && va % PAGE_4KB == 0 && size > 0
    requires Progress(cfg, q, w.nodes, Cursor(q, va), size, target, low) && Uniform(cfg, q, w.nodes, va, size)
    ensures var c, b := Cursor(q, va), v.w.nodes; var k := c.num % 16;
      && c in b && c in w1.nodes && VisitMarks(cfg, w1.nodes, b, c, WasGroup(cfg, w.nodes, c), size)
      && AllMatch(cfg, q, b, c, target, low, k + 1)
      && (GroupOk(cfg, b, c) || (k < 15 && WillFill(c, size, target) && AllMatch(cfg, q, b, c, target, 0, k + 1)))
      && !(low > 0 && WillFill(c, size, target) && Match(cfg, q, b, c, target, 0) && !AllMatch(cfg, q, b, c, target, 0, low))
  {
    hide Ps64Visit, WasGroup, WellFormed, GroupComplete, FlagsOf, Match, WillFill, GroupOk, MarkKept, VisitMarks;
    var c := Cursor(q, va);
    if c in w.nodes { ParentKept(cfg, w.nodes, c); }
    PlacedMatches(cfg, q, w, va, size, target, v, w1);
    WasGroupFull(cfg, w.nodes, w1.nodes, c);
    Ps64VisitMarks(cfg, w1, c, WasGroup(cfg, w.nodes, c), size);
    if c.num % 16 == low { IntactGroup(cfg, w.nodes, c); }
    if low > 0 && WillFill(c, size, target) && Match(cfg, q, w.nodes, c, target, 0) {
      NothingUnderAbsent(cfg, q, w.nodes, c, target);
      assert AllMatch(cfg, q, w.nodes, c, target, 0, low);
    }
    GroupAfter(cfg, q, w.nodes, w1.nodes, v.w.nodes, c, size, target, low);
  }

  lemma WasGroupFull(cfg: Config, n0: Forest, a: Forest, c: Slot)
    requires LowSameBut(n0, a, c) && c in a
    ensures WasGroup(cfg, n0, c) ==> forall j {:trigger Member(c, j)} :: 0 <= j < 16 ==> Member(c, j) in a
  {
    hide FlagsOf;
  }

  lemma OthersKept(cfg: Config, q: Request, w: Walk, va: nat, size: nat, target: nat, v: Visit, w1: Walk, s: Slot)
    requires ValidConfig(cfg) && WellFormed(cfg, w.nodes) && KindsKept(w.nodes, v.w.nodes)
    requires SmallVisit(cfg, q, w, va, size, target, v, w1)
    requires var c := Cursor(q, va); c in v.w.nodes && VisitMarks(cfg, w1.nodes, v.w.nodes, c, WasGroup(cfg, w.nodes, c), size)
    requires s in v.w.nodes && !InGroup(Cursor(q, va), s) && (s in w.nodes ==> MarkKept(cfg, w.nodes, s))
    ensures MarkKept(cfg, v.w.nodes, s)
    ensures s.level == 0 ==> s in w.nodes && v.w.nodes[s] == w.nodes[s]
  {
    hide Ps64Visit, WasGroup, WellFormed, VisitMarks, MarkKept;
    var c := Cursor(q, va);
    OnlyMarksMove(cfg, w1.nodes, v.w.nodes, c, WasGroup(cfg, w.nodes, c), size);
    if s.level == 0 {
      assert InGroup(c, c);
      ParentKept(cfg, w.nodes, s);
      forall x | InGroup(s, x) ensures (x in w.nodes <==> x in v.w.nodes) && (x in w.nodes ==> v.w.nodes[x] == w.nodes[x]) {
        assert !InGroup(c, x);
      }
      OtherGroupKept(cfg, w.nodes, v.w.nodes, s);
    } else {
      HighUnmarked(cfg, v.w.nodes, s);
    }
  }

  lemma HighUnmarked(cfg: Config, nodes: Forest, s: Slot)
    requires s in nodes && s.level > 0
    ensures MarkKept(cfg, nodes, s)
  {
  }

  /** The last page of the range. */
  lemma SmallTurnEnds(cfg: Config, q: Request, w: Walk, va: nat, size: nat, target: nat, v: Visit, w1: Walk, low: nat)
    requires ValidConfig(cfg) && WellFormed(cfg, w.nodes) && KindsKept(w.nodes, v.w.nodes)
    requires SmallVisit(cfg, q, w, va, size, target, v, w1) && va % PAGE_4KB == 0 && 0 < size
    requires Progress(cfg, q, w.nodes, Cursor(q, va), size, target, low) && Uniform(cfg, q, w.nodes, va, size)
    requires size <= PAGE_4KB || Cursor(q, va).num % 16 == 15
    ensures GroupsIntact(cfg, v.w.nodes)
  {
    hide Ps64Visit, WasGroup, WellFormed, VisitMarks, MarkKept, GroupOk, Match, InGroup;
    var c := Cursor(q, va);
    SmallTurnGroup(cfg, q, w, va, size, target, v, w1, low);
    forall s | s in v.w.nodes ensures MarkKept(cfg, v.w.nodes, s) {
      if InGroup(c, s) {
        GroupMateKept(cfg, v.w.nodes, c, s);
      } else {
        OthersKept(cfg, q, w, va, size, target, v, w1, s);
      }
    }
  }

  lemma SmallTurnContinues(cfg: Config, q: Request, w: Walk, va: nat, size: nat, target: nat, v: Visit, w1: Walk, low: nat)
    requires ValidConfig(cfg) && WellFormed(cfg, w.nodes) && KindsKept(w.nodes, v.w.nodes)
    requires SmallVisit(cfg, q, w, va, size, target, v, w1) && va % PAGE_4KB == 0 && size > PAGE_4KB
    requires Progress(cfg, q, w.nodes, Cursor(q, va), size, target, low) && Uniform(cfg, q, w.nodes, va, size)
    requires Cursor(q, va).num % 16 < 15
    ensures Progress(cfg, q, v.w.nodes, Cursor(q, va + PAGE_4KB), size - PAGE_4KB, target + PAGE_4KB, low)
  {
    hide Ps64Visit, WasGroup, WellFormed, VisitMarks, MarkKept, Match, InGroup, WillFill, GroupComplete, AllMatch, GroupOk;
    var c := Cursor(q, va);
    var d := Cursor(q, va + PAGE_4KB);
    assert d == c.(num := c.num + 1);
    SmallTurnGroup(cfg, q, w, va, size, target, v, w1, low);
    Advance(cfg, q, v.w.nodes, c, d, size, target);
    forall s | s in v.w.nodes && !InGroup(d, s) ensures MarkKept(cfg, v.w.nodes, s) {
      OthersKept(cfg, q, w, va, size, target, v, w1, s);
    }
    SameGroupOk(cfg, v.w.nodes, c, d);
    MatchesAdvance(cfg, q, v.w.nodes, c, d, target, target + PAGE_4KB);
  }

  lemma MatchesAdvance(cfg: Config, q: Request, nodes: Forest, c: Slot, d: Slot, target: nat, t: nat)
    requires forall j: nat :: Match(cfg, q, nodes, d, t, j) <==> Match(cfg, q, nodes, c, target, j)
    ensures forall a: nat, b: nat :: AllMatch(cfg, q, nodes, d, t, a, b) <==> AllMatch(cfg, q, nodes, c, target, a, b)
  {
    hide Match;
  }

  lemma SameGroupOk(cfg: Config, nodes: Forest, c: Slot, d: Slot)
    requires InGroup(c, d) && c.level == 0
    ensures GroupOk(cfg, nodes, c) == GroupOk(cfg, nodes, d)
  {
    hide GroupComplete, NoneMarked, AllMarked;
    SameGroupSameComplete(cfg, nodes, c, d);
    SameGroupSameMarks(nodes, c, d);
  }

  lemma SameGroupSameMarks(nodes: Forest, c: Slot, d: Slot)
    requires InGroup(c, d)
    ensures NoneMarked(nodes, c) == NoneMarked(nodes, d) && AllMarked(nodes, c) == AllMarked(nodes, d)
  {
    assert forall i {:trigger Member(d, i)} {:trigger Member(c, i)} :: Member(d, i) == Member(c, i);
    assert forall x :: InGroup(c, x) <==> InGroup(d, x);
  }

  lemma InGroupLevel(c: Slot, s: Slot)
    requires InGroup(c, s)
    ensures s.level == 0
  {
  }

  lemma UnmarkedGroupOk(cfg: Config, nodes: Forest, c: Slot)
    requires forall s :: s in nodes && InGroup(c, s) ==> !nodes[s].ps64
    ensures GroupOk(cfg, nodes, c)
  {
  }

  lemma FreshGroup(cfg: Config, q: Request, nodes: Forest, c: Slot, size: nat, target: nat)
    requires GroupsIntact(cfg, nodes) && c.level == 0 && c.tree == q.tree
    ensures Progress(cfg, q, nodes, c, size, target, c.num % 16) <==> !Misjudged(cfg, q, nodes, c, size, target, c.num % 16)
  {
    hide MarkKept, Misjudged;
  }

  /** A 2MB or 64KB page cannot come up inside a group in progress, and breaks none. */
  lemma OtherTurn(cfg: Config, q: Request, w: Walk, va: nat, size: nat, target: nat, v: Visit, low: nat)
    requires ValidConfig(cfg) && WellFormed(cfg, w.nodes) && KindsKept(w.nodes, v.w.nodes) && OtherVisit(q, w, v)
    requires Progress(cfg, q, w.nodes, Cursor(q, va), size, target, low) && !Under4KB(w.nodes, q.tree, Cursor(q, va))
    ensures GroupsIntact(cfg, v.w.nodes)
  {
    hide WellFormed, GroupOk, MarkKept, Misjudged;
    forall s | s in v.w.nodes ensures MarkKept(cfg, v.w.nodes, s) {
      if s.level == 0 && v.w.nodes[s].ps64 {
        assert s in w.nodes && w.nodes[s].ps64;
        OtherMarkKept(cfg, q, w, v, s);
      } else {
        UnmarkedKept(cfg, v.w.nodes, s);
      }
    }
  }

  lemma UnmarkedKept(cfg: Config, nodes: Forest, s: Slot)
    requires s in nodes && (s.level > 0 || !nodes[s].ps64)
    ensures MarkKept(cfg, nodes, s)
  {
  }

  lemma OtherMarkKept(cfg: Config, q: Request, w: Walk, v: Visit, s: Slot)
    requires ValidConfig(cfg) && WellFormed(cfg, w.nodes) && KindsKept(w.nodes, v.w.nodes) && OtherVisit(q, w, v)
    requires s in w.nodes && s.level == 0 && w.nodes[s].ps64 && MarkKept(cfg, w.nodes, s)
    ensures MarkKept(cfg, v.w.nodes, s)
  {
    hide WellFormed, GroupOk;
    assert v.w.nodes[Parent(s)].kind.Pte4KB?;
    forall x | InGroup(s, x) ensures (x in w.nodes <==> x in v.w.nodes) && (x in w.nodes ==> v.w.nodes[x] == w.nodes[x]) {
      SameTable(s, x);
    }
    assert InGroup(s, s);
    OtherGroupKept(cfg, w.nodes, v.w.nodes, s);
  }

  // ---- whole walks ----

  ghost predicate Mapping4KB(cfg: Config, q: Request) {
    Ps64Applicable(cfg, q) && q.mapping && q.mode.Reserve?
  }

  lemma UniformStays(cfg: Config, q: Request, a: Forest, b: Forest, leaf: Slot, va: nat, size: nat, va': nat, size': nat)
    requires ValidConfig(cfg) && WellFormed(cfg, a) && Evolves(a, b, Some(leaf)) && Uniform(cfg, q, a, va, size)
    requires va <= va' && va' + size' <= va + size && LowSameKeys(a, b, leaf)
    requires Under4KB(b, q.tree, leaf) ==> leaf.num < va' / PAGE_4KB
    ensures Uniform(cfg, q, b, va', size')
  {
    hide WellFormed;
    PageIndexMonotone(va, va');
    forall s | s in b && Under4KB(b, q.tree, s) && va' / PAGE_4KB <= s.num && s.num * PAGE_4KB < va' + size'
      ensures cfg.extraBits(b[s].attributes) == cfg.extraBits(q.attributes) {
      ParentKept(cfg, a, s);
      assert s != leaf && s in a && Under4KB(a, q.tree, s);
    }
  }

  ghost predicate LowSameKeys(a: Forest, b: Forest, leaf: Slot) {
    forall s: Slot :: s.level == 0 && s in b && s != leaf ==> s in a
  }

  /** One turn, whatever page it meets: the range is done with every promise kept, or the rest of it is in progress. */
  lemma TurnKeepsGroups(cfg: Config, q: Request, w: Walk, va: nat, size: nat, target: nat, info: PageInfo, low: nat) returns (low': nat)
    requires Sound(cfg, q, w.nodes) && FitsIn(cfg, va, size) && size > 0 && Mapping4KB(cfg, q)
    requires va % PAGE_4KB == 0 && Progress(cfg, q, w.nodes, Cursor(q, va), size, target, low) && Uniform(cfg, q, w.nodes, va, size)
    ensures var v := PageVisit(cfg, q, w, va, size, target, info); var step := PageStep(v.pageSize, va, size);
      && v.leaf.Some?
      && (size == step ==> GroupsIntact(cfg, v.w.nodes))
      && (size > step ==>
            && (va + step) % PAGE_4KB == 0
            && Progress(cfg, q, v.w.nodes, Cursor(q, va + step), size - step, NextTarget(v, va, size), low')
            && Uniform(cfg, q, v.w.nodes, va + step, size - step))
  {
    hide PageVisit, WellFormed, LeafSize, BankAt, FitsIn, LeafFits, Progress, Uniform, GroupsIntact, MarkKept, Misjudged, Ps64Visit;
    var v := PageVisit(cfg, q, w, va, size, target, info);
    TurnFacts(cfg, q, w, va, size, target, info);
    var step := PageStep(v.pageSize, va, size);
    low' := low;
    VisitKeepsKinds(cfg, q, w, va, v);
    if v.pageSize == PAGE_4KB {
      low' := SmallTurn(cfg, q, w, va, size, target, info, v, low);
    } else {
      low' := 0;
      LargerTurn(cfg, q, w, va, size, target, info, v, low);
    }
  }

  lemma VisitKeepsKinds(cfg: Config, q: Request, w: Walk, va: nat, v: Visit)
    requires Visited(cfg, q, w, va, v)
    ensures KindsKept(w.nodes, v.w.nodes)
  {
    hide WellFormed, LeafOf, LeafSize, GrowsOnPath;
  }

  lemma SmallTurn(cfg: Config, q: Request, w: Walk, va: nat, size: nat, target: nat, info: PageInfo, v: Visit, low: nat) returns (low': nat)
    requires Ready(cfg, q, w.nodes, va) && size > 0 && Mapping4KB(cfg, q) && v == PageVisit(cfg, q, w, va, size, target, info)
    requires v.pageSize == PAGE_4KB && Visited(cfg, q, w, va, v) && KindsKept(w.nodes, v.w.nodes)
    requires va % PAGE_4KB == 0 && Progress(cfg, q, w.nodes, Cursor(q, va), size, target, low) && Uniform(cfg, q, w.nodes, va, size)
    ensures size <= PAGE_4KB ==> GroupsIntact(cfg, v.w.nodes)
    ensures v.leaf.Some? && PageStep(PAGE_4KB, va, size) == Min(size, PAGE_4KB)
    ensures size > PAGE_4KB ==>
      && Progress(cfg, q, v.w.nodes, Cursor(q, va + PAGE_4KB), size - PAGE_4KB, NextTarget(v, va, size), low')
      && Uniform(cfg, q, v.w.nodes, va + PAGE_4KB, size - PAGE_4KB)
  {
    hide PageVisit, WellFormed, LeafOf, LeafSize, LeafFits, Progress, Uniform, GroupsIntact, MarkKept, Misjudged, Ps64Visit, WasGroup;
    hide Visited, NextTarget, Cursor, PageStep;
    var w1 := PageVisitSmall(cfg, q, w, va, size, target, info);
    low' := low;
    PageByPage(va, size);
    CursorMoves(q, va);
    if size <= PAGE_4KB || Cursor(q, va).num % 16 == 15 { SmallTurnEnds(cfg, q, w, va, size, target, v, w1, low); }
    if size > PAGE_4KB {
      if Cursor(q, va).num % 16 == 15 {
        low' := 0;
        FreshStart(cfg, q, v.w.nodes, Cursor(q, va + PAGE_4KB), size - PAGE_4KB, target + PAGE_4KB);
      } else {
        SmallTurnContinues(cfg, q, w, va, size, target, v, w1, low);
      }
      TargetByPage(v, va, size);
      UniformAfterSmall(cfg, q, w, va, size, target, v, w1);
    }
  }

  lemma UniformAfterSmall(cfg: Config, q: Request, w: Walk, va: nat, size: nat, target: nat, v: Visit, w1: Walk)
    requires ValidConfig(cfg) && WellFormed(cfg, w.nodes) && Visited(cfg, q, w, va, v)
    requires SmallVisit(cfg, q, w, va, size, target, v, w1) && size > PAGE_4KB && Uniform(cfg, q, w.nodes, va, size)
    ensures Uniform(cfg, q, v.w.nodes, va + PAGE_4KB, size - PAGE_4KB)
  {
    hide Ps64Visit, WellFormed, WasGroup, LeafOf, LeafSize, GrowsOnPath, LeafFits, Uniform;
    VisitedLow(w, v, w1, Cursor(q, va), WasGroup(cfg, w.nodes, Cursor(q, va)), cfg, size);
    UniformStays(cfg, q, w.nodes, v.w.nodes, Cursor(q, va), va, size, va + PAGE_4KB, size - PAGE_4KB);
  }

  lemma PageByPage(va: nat, size: nat)
    requires va % PAGE_4KB == 0
    ensures PageStep(PAGE_4KB, va, size) == Min(size, PAGE_4KB)
    ensures (va + PAGE_4KB) % PAGE_4KB == 0
  {
  }

  lemma CursorMoves(q: Request, va: nat)
    ensures Cursor(q, va).level == 0 && Cursor(q, va).tree == q.tree
    ensures Cursor(q, va + PAGE_4KB) == Cursor(q, va).(num := Cursor(q, va).num + 1)
  {
  }

  lemma TargetByPage(v: Visit, va: nat, size: nat)
    requires va % PAGE_4KB == 0 && size > PAGE_4KB && v.pageSize == PAGE_4KB
    ensures NextTarget(v, va, size) == v.target + PAGE_4KB
  {
  }

  lemma VisitedLow(w: Walk, v: Visit, w1: Walk, c: Slot, wasGroup: bool, cfg: Config, size: nat)
    requires c in w1.nodes && c.level == 0 && LowSameBut(w.nodes, w1.nodes, c) && v.w == Ps64Visit(cfg, w1, c, wasGroup, size)
    ensures LowSameKeys(w.nodes, v.w.nodes, c)
  {
    hide UpgradeFrom, DowngradeFrom, Speculate, GroupComplete;
  }

  /** A group entered at its first entry. */
  lemma FreshStart(cfg: Config, q: Request, nodes: Forest, c: Slot, size: nat, target: nat)
    requires GroupsIntact(cfg, nodes) && c.level == 0 && c.tree == q.tree && c.num % 16 == 0
    ensures Progress(cfg, q, nodes, c, size, target, 0)
  {
    FreshGroup(cfg, q, nodes, c, size, target);
  }

  lemma LargerTurn(cfg: Config, q: Request, w: Walk, va: nat, size: nat, target: nat, info: PageInfo, v: Visit, low: nat)
    requires Ready(cfg, q, w.nodes, va) && size > 0 && Mapping4KB(cfg, q) && v == PageVisit(cfg, q, w, va, size, target, info)
    requires v.pageSize != PAGE_4KB && Visited(cfg, q, w, va, v) && KindsKept(w.nodes, v.w.nodes)
    requires va % PAGE_4KB == 0 && Progress(cfg, q, w.nodes, Cursor(q, va), size, target, low) && Uniform(cfg, q, w.nodes, va, size)
    ensures GroupsIntact(cfg, v.w.nodes) && v.leaf.Some?
    ensures var step := PageStep(v.pageSize, va, size); size > step ==>
      && (va + step) % PAGE_4KB == 0
      && Progress(cfg, q, v.w.nodes, Cursor(q, va + step), size - step, NextTarget(v, va, size), 0)
      && Uniform(cfg, q, v.w.nodes, va + step, size - step)
  {
    hide PageVisit, WellFormed, LeafOf, LeafFits, Progress, Uniform, GroupsIntact, MarkKept, Misjudged, NextTarget;
    PageVisitOther(cfg, q, w, va, size, target, info);
    NotUnder4KB(cfg, q, w, va, v);
    OtherTurn(cfg, q, w, va, size, target, v, low);
    var step := PageStep(v.pageSize, va, size);
    if size > step {
      LargePageEnd(v.pageSize, va, size);
      FreshStart(cfg, q, v.w.nodes, Cursor(q, va + step), size - step, NextTarget(v, va, size));
      UniformStays(cfg, q, w.nodes, v.w.nodes, v.leaf.value, va, size, va + step, size - step);
    }
  }

  lemma LargePageEnd(unit: nat, va: nat, size: nat)
    requires (unit == PAGE_64KB || unit == PAGE_2MB) && size > PageStep(unit, va, size)
    ensures (va + PageStep(unit, va, size)) % PAGE_64KB == 0
    ensures (va + PageStep(unit, va, size)) % PAGE_4KB == 0 && (va + PageStep(unit, va, size)) / PAGE_4KB % 16 == 0
  {
    LargePageEnds(va, unit);
    PageEndAfter(va, unit);
    var m: nat :| PageEnd(va, unit) == m * PAGE_64KB;
    WholePages(PageEnd(va, unit), m);
    MultipleModulo(m, 16);
  }

  lemma NotUnder4KB(cfg: Config, q: Request, w: Walk, va: nat, v: Visit)
    requires ValidConfig(cfg) && Visited(cfg, q, w, va, v) && v.leaf.Some? && v.pageSize != PAGE_4KB && OtherVisit(q, w, v)
    ensures !Under4KB(w.nodes, q.tree, Cursor(q, va))
    ensures v.pageSize == PAGE_64KB || v.pageSize == PAGE_2MB
  {
    hide WellFormed, LeafSlot;
    SpanStep(va, 0);
    var p := TableSlot(q.tree, 1, va);
    assert Parent(Cursor(q, va)) == p;
    if p in w.nodes && w.nodes[p].kind.Pte4KB? {
      LeafSlotParent(cfg, q.tree, Pte4KB, va);
      LeafSlotLevel(cfg, q.tree, Pte4KB, va);
    }
  }

  lemma {:induction false} WalkKeepsGroups(cfg: Config, q: Request, w: Walk, va: nat, size: nat, target: nat, i: nat, low: nat)
    requires Sound(cfg, q, w.nodes) && FitsIn(cfg, va, size) && size > 0 && Mapping4KB(cfg, q)
    requires va % PAGE_4KB == 0 && Progress(cfg, q, w.nodes, Cursor(q, va), size, target, low) && Uniform(cfg, q, w.nodes, va, size)
    ensures GroupsIntact(cfg, WalkFrom(cfg, q, w, va, size, target, i).0.nodes)
    decreases size
  {
    hide PageVisit, WalkFrom, WellFormed, LeafOf, LeafSize, BankAt, FitsIn, LeafFits, Grown, Progress, Uniform, GroupsIntact, NextTarget, Cursor;
    var v := PageVisit(cfg, q, w, va, size, target, InfoAt(q, i));
    TurnFacts(cfg, q, w, va, size, target, InfoAt(q, i));
    WalkTurn(cfg, q, w, va, size, target, i);
    var low' := TurnKeepsGroups(cfg, q, w, va, size, target, InfoAt(q, i), low);
    var step := PageStep(v.pageSize, va, size);
    var next := Report(v, va, size, BankAt(q, va));
    if size == step {
      WalkOfNothing(cfg, q, next, va + step, NextTarget(v, va, size), i + 1);
    } else {
      WalkKeepsGroups(cfg, q, next, va + step, size - step, NextTarget(v, va, size), i + 1, low');
    }
  }
}
