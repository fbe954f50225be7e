/** What a walk has queued for the stream never falls behind the tree: the invariant of every elementary step. */
module WalkStream {
  import opened Wrappers
  import opened Arithmetic
  import opened PageTables
  import opened WalkModel
  import opened TreeFacts
  import PhysicalMemory

  /** The value the queued entries leave in a slot. */
  function Last(list: seq<PageEntryInfo>, s: Slot): Option<Entry> {
    if list == [] then None
    else if list[|list| - 1].slot == s then Some(list[|list| - 1].entry)
    else Last(list[..|list| - 1], s)
  }

  function LastQueued(w: Walk, s: Slot): Option<Entry> {
    if s.level < 5 then Last(w.table[s.level], s) else None
  }

  lemma LastAppend(list: seq<PageEntryInfo>, e: PageEntryInfo, s: Slot)
    ensures Last(list + [e], s) == if e.slot == s then Some(e.entry) else Last(list, s)
  {
    assert (list + [e])[..|list|] == list;
  }

  /** A node that is not pending has not changed since the walk began, and what is queued for it, if anything, is its value. */
  ghost predicate QuietOk(cfg: Config, n0: Forest, w: Walk) {
    forall s :: s in w.nodes && !w.nodes[s].pending ==>
      && s in n0 && !n0[s].pending && EntryOf(cfg, n0[s]) == EntryOf(cfg, w.nodes[s])
      && s !in w.emitted
      && (LastQueued(w, s) == None || LastQueued(w, s) == Some(EntryOf(cfg, w.nodes[s])))
  }

  /** An emitted node is pending and its current value is the last one queued; `open` lists slots still owed an entry. */
  ghost predicate EmittedOk(cfg: Config, w: Walk, open: set<Slot>) {
    forall s :: s in w.emitted ==>
      && s in w.nodes && s.level < 5 && w.nodes[s].pending
      && (s !in open ==> LastQueued(w, s) == Some(EntryOf(cfg, w.nodes[s])))
  }

  /** A pending node was pending before the walk or is on its way out. */
  ghost predicate PendingOk(n0: Forest, w: Walk, open: set<Slot>) {
    forall s :: s in w.nodes && w.nodes[s].pending ==> s in w.emitted || s in open || (s in n0 && n0[s].pending)
  }

  /** The nodes to clear after a commit are exactly the emitted ones. */
  ghost predicate ListsOk(w: Walk) {
    && (forall l, s :: 0 <= l < 5 && s in w.pendingNodes[l] ==> s.level == l && s in w.emitted)
    && (forall s :: s in w.emitted ==> s.level < 5 && s in w.pendingNodes[s.level])
  }

  /** A node of the walked tree with a table above it, so that it has an entry to stream. */
  predicate Hangs(w: Walk, s: Slot) {
    s in w.nodes && s.tree == w.tree && Parent(s) in w.nodes
  }

  /** Queued entries go to the address of their slot. */
  ghost predicate AddressesOk(w: Walk) {
    forall l, i :: 0 <= l < 5 && 0 <= i < |w.table[l]| ==>
      && w.table[l][i].slot.level == l && Hangs(w, w.table[l][i].slot)
      && w.table[l][i].address == EntryAddress(w.nodes, w.table[l][i].slot)
  }

  ghost predicate Queued(cfg: Config, n0: Forest, w: Walk, open: set<Slot>) {
    QuietOk(cfg, n0, w) && EmittedOk(cfg, w, open) && PendingOk(n0, w, open) && ListsOk(w) && AddressesOk(w)
  }

  // ---- elementary steps ----

  /** Changing a node marks it pending, or changes nothing; its entry is then owed. */
  lemma PutKeepsQueued(cfg: Config, n0: Forest, w: Walk, open: set<Slot>, s: Slot, n: Node)
    requires Queued(cfg, n0, w, open)
    requires n.pending || (s in w.nodes && n == w.nodes[s])
    requires forall x :: x in w.nodes && Parent(x) == s ==> s in w.nodes && n.phys == w.nodes[s].phys
    ensures Queued(cfg, n0, PutNode(w, s, n), open + {s})
  {
    hide EntryOf, EntryAddress, LastQueued, QuietOk, EmittedOk, PendingOk, ListsOk, AddressesOk;
    var r := PutNode(w, s, n);
    QueueUnchanged(w, r);
    assert AddressesOk(r) by { AddressesStay(w, s, n); PutKeepsAddresses(w, s, n); }
    assert ListsOk(r) by { PutKeepsLists(w, s, n); }
    PutKeepsMarks(cfg, n0, w, open, s, n);
  }

  lemma PutKeepsAddresses(w: Walk, s: Slot, n: Node)
    requires AddressesOk(w)
    requires forall x :: x in w.nodes ==> EntryAddress(w.nodes[s := n], x) == EntryAddress(w.nodes, x)
    ensures AddressesOk(PutNode(w, s, n))
  {
    hide EntryAddress;
  }

  lemma PutKeepsLists(w: Walk, s: Slot, n: Node)
    requires ListsOk(w)
    ensures ListsOk(PutNode(w, s, n))
  {
  }

  lemma PutKeepsMarks(cfg: Config, n0: Forest, w: Walk, open: set<Slot>, s: Slot, n: Node)
    requires QuietOk(cfg, n0, w) && EmittedOk(cfg, w, open) && PendingOk(n0, w, open)
    requires n.pending || (s in w.nodes && n == w.nodes[s])
    requires forall x :: LastQueued(PutNode(w, s, n), x) == LastQueued(w, x)
    ensures var r := PutNode(w, s, n); QuietOk(cfg, n0, r) && EmittedOk(cfg, r, open + {s}) && PendingOk(n0, r, open + {s})
  {
    hide EntryOf, LastQueued;
  }

  lemma QueueUnchanged(w: Walk, r: Walk)
    requires r.table == w.table
    ensures forall x :: LastQueued(r, x) == LastQueued(w, x)
  {
  }

  lemma AddressesStay(w: Walk, s: Slot, n: Node)
    requires forall x :: x in w.nodes && Parent(x) == s ==> s in w.nodes && n.phys == w.nodes[s].phys
    ensures forall x :: x in w.nodes ==> EntryAddress(w.nodes[s := n], x) == EntryAddress(w.nodes, x)
  {
  }

  lemma EmitLast(cfg: Config, w: Walk, s: Slot)
    requires s in w.nodes && s.level < 5
    ensures forall x :: LastQueued(Emit(cfg, w, s), x) == if x == s then Some(EntryOf(cfg, w.nodes[s])) else LastQueued(w, x)
  {
    hide EntryOf, EntryAddress;
    forall x ensures LastQueued(Emit(cfg, w, s), x) == if x == s then Some(EntryOf(cfg, w.nodes[s])) else LastQueued(w, x) {
      if x.level == s.level {
        LastAppend(w.table[s.level], PageEntryInfo(s, EntryAddress(w.nodes, s), EntryOf(cfg, w.nodes[s])), x);
      }
    }
  }

  /** Queueing the current value of a slot pays what is owed to it, once it is tracked or not pending. */
  lemma EmitKeepsQueued(cfg: Config, n0: Forest, w: Walk, open: set<Slot>, s: Slot)
    requires Queued(cfg, n0, w, open) && Hangs(w, s) && s.level < 5
    ensures Queued(cfg, n0, Emit(cfg, w, s), open)
    ensures s in w.emitted || !w.nodes[s].pending ==> Queued(cfg, n0, Emit(cfg, w, s), open - {s})
  {
    hide EntryOf, EntryAddress, LastQueued;
    EmitLast(cfg, w, s);
    var r := Emit(cfg, w, s);
    assert AddressesOk(r);
  }

  /** Tracking a pending slot whose value is queued. */
  lemma TrackKeepsQueued(cfg: Config, n0: Forest, w: Walk, open: set<Slot>, s: Slot)
    requires Queued(cfg, n0, w, open) && s in w.nodes && s.level < 5 && w.nodes[s].pending
    requires s !in open ==> LastQueued(w, s) == Some(EntryOf(cfg, w.nodes[s]))
    ensures Queued(cfg, n0, Track(w, s), open)
    ensures LastQueued(w, s) == Some(EntryOf(cfg, w.nodes[s])) ==> Queued(cfg, n0, Track(w, s), open - {s})
  {
    hide EntryOf, EntryAddress, LastQueued;
    QueueUnchanged(w, Track(w, s));
  }

  lemma OpenMore(cfg: Config, n0: Forest, w: Walk, open: set<Slot>, open': set<Slot>)
    requires Queued(cfg, n0, w, open) && open <= open'
    ensures Queued(cfg, n0, w, open')
  {
    hide EntryOf, EntryAddress, LastQueued;
  }

  /** Nothing is owed to a slot that is not pending, or whose queued value is current. */
  lemma Settled(cfg: Config, n0: Forest, w: Walk, open: set<Slot>, s: Slot)
    requires Queued(cfg, n0, w, open) && s in w.nodes
    requires !w.nodes[s].pending || (s in w.emitted && LastQueued(w, s) == Some(EntryOf(cfg, w.nodes[s])))
    ensures Queued(cfg, n0, w, open - {s})
  {
    hide EntryOf, EntryAddress, LastQueued;
  }

  lemma PlainVisitKeepsQueued(cfg: Config, n0: Forest, w: Walk, open: set<Slot>, s: Slot, force: bool)
    requires Queued(cfg, n0, w, open) && Hangs(w, s) && s.level < 5
    requires s in open && s in w.emitted ==> force
    ensures Queued(cfg, n0, PlainVisit(cfg, w, s, force), open - {s})
    ensures w.nodes[s].pending ==> s in PlainVisit(cfg, w, s, force).emitted
    ensures w.emitted <= PlainVisit(cfg, w, s, force).emitted
  {
    hide EntryOf, EntryAddress, LastQueued, Queued, Emit;
    EmittedNodes(cfg, n0, w, open);
    if w.nodes[s].pending && s !in w.emitted {
      OpenMore(cfg, n0, w, open, open + {s});
      TrackKeepsQueued(cfg, n0, w, open + {s}, s);
      EmitKeepsQueued(cfg, n0, Track(w, s), open + {s}, s);
      assert open + {s} - {s} == open - {s};
      EmitEffects(cfg, Track(w, s), s);
    } else if force {
      EmitKeepsQueued(cfg, n0, w, open, s);
      EmitEffects(cfg, w, s);
    } else {
      if w.nodes[s].pending { EmittedCurrent(cfg, n0, w, open, s); }
      Settled(cfg, n0, w, open, s);
    }
  }

  lemma EmitEffects(cfg: Config, w: Walk, s: Slot)
    requires s in w.nodes && s.level < 5
    ensures var r := Emit(cfg, w, s);
      r.nodes == w.nodes && r.emitted == w.emitted && r.mem == w.mem && r.entries == w.entries && r.tree == w.tree
  {
  }

  lemma EmittedNodes(cfg: Config, n0: Forest, w: Walk, open: set<Slot>)
    requires Queued(cfg, n0, w, open)
    ensures forall s :: s in w.emitted ==> s in w.nodes && s.level < 5 && w.nodes[s].pending
  {
    hide EntryOf, LastQueued;
  }

  lemma EmittedCurrent(cfg: Config, n0: Forest, w: Walk, open: set<Slot>, s: Slot)
    requires Queued(cfg, n0, w, open) && s in w.emitted && s !in open
    ensures s in w.nodes && LastQueued(w, s) == Some(EntryOf(cfg, w.nodes[s]))
  {
    hide EntryOf, LastQueued;
  }

  lemma UpgradeKeepsQueued(cfg: Config, n0: Forest, w: Walk, open: set<Slot>, s: Slot)
    requires Queued(cfg, n0, w, open) && Hangs(w, s) && s.level == 0
    ensures var r := Upgrade(cfg, w, s);
      && Queued(cfg, n0, r, if !w.nodes[s].ps64 || s !in w.emitted then open - {s} else open)
      && (r.nodes[s].pending ==> s in r.emitted) && w.emitted <= r.emitted <= w.emitted + {s}
      && r.nodes == w.nodes[s := r.nodes[s]]
      && r.nodes[s] == w.nodes[s].(ps64 := true, pending := r.nodes[s].pending)
      && (w.nodes[s].pending ==> r.nodes[s].pending)
  {
    hide EntryOf, EntryAddress, LastQueued, Queued, Emit;
    EmittedNodes(cfg, n0, w, open);
    var n := w.nodes[s].(ps64 := true, pending := true);
    if !w.nodes[s].ps64 {
      var w1 := PutNode(w, s, n);
      PutKeepsQueued(cfg, n0, w, open, s, n);
      EmitEffects(cfg, w1, s);
      QueueThenTrack(cfg, n0, w1, open + {s}, s);
      assert open + {s} - {s} == open - {s};
    } else if s !in w.emitted {
      assert w == w.(nodes := w.nodes);
      EmitEffects(cfg, w, s);
      if w.nodes[s].pending {
        OpenMore(cfg, n0, w, open, open + {s});
        QueueThenTrack(cfg, n0, w, open + {s}, s);
        assert open + {s} - {s} == open - {s};
      } else {
        Settled(cfg, n0, w, open, s);
      }
    }
  }

  /** Emit and then track, as the PS64 passes do. */
  lemma QueueThenTrack(cfg: Config, n0: Forest, w: Walk, open: set<Slot>, s: Slot)
    requires Queued(cfg, n0, w, open) && s in open && Hangs(w, s) && s.level < 5 && w.nodes[s].pending
    ensures var w2 := Emit(cfg, w, s);
      Queued(cfg, n0, if s in w2.emitted then w2 else Track(w2, s), open - {s})
  {
    hide EntryOf, EntryAddress, LastQueued, Queued, Emit;
    EmitKeepsQueued(cfg, n0, w, open, s);
    EmitEffects(cfg, w, s);
    EmitLast(cfg, w, s);
    if s !in w.emitted {
      TrackKeepsQueued(cfg, n0, Emit(cfg, w, s), open, s);
    }
  }

  lemma DowngradeKeepsQueued(cfg: Config, n0: Forest, w: Walk, open: set<Slot>, s: Slot)
    requires Queued(cfg, n0, w, open) && Hangs(w, s) && s.level == 0
    ensures var r := Downgrade(cfg, w, s);
      && Queued(cfg, n0, r, open - {s})
      && s in r.emitted && w.emitted <= r.emitted <= w.emitted + {s}
      && r.nodes == w.nodes[s := w.nodes[s].(ps64 := false, pending := true)]
  {
    hide EntryOf, EntryAddress, LastQueued, Queued, Emit;
    var n := w.nodes[s].(ps64 := false, pending := true);
    PutKeepsQueued(cfg, n0, w, open, s, n);
    var w1 := PutNode(w, s, n);
    EmitEffects(cfg, w1, s);
    QueueThenTrack(cfg, n0, w1, open + {s}, s);
    assert open + {s} - {s} == open - {s};
  }

  lemma SpeculateKeepsQueued(cfg: Config, n0: Forest, w: Walk, open: set<Slot>, s: Slot, size: nat)
    requires Queued(cfg, n0, w, open) && Hangs(w, s) && s.level == 0
    ensures var r := Speculate(cfg, w, s, size);
      && Queued(cfg, n0, r, open - {s})
      && (r.nodes[s].pending ==> s in r.emitted) && w.emitted <= r.emitted <= w.emitted + {s}
      && r.nodes == w.nodes[s := r.nodes[s]]
      && r.nodes[s] == w.nodes[s].(ps64 := r.nodes[s].ps64, pending := r.nodes[s].pending)
      && r.nodes[s].ps64 == (w.nodes[s].ps64 || WillComplete(cfg, w.nodes, s, size))
  {
    hide EntryOf, EntryAddress, LastQueued, Queued, Emit, WillComplete;
    var n := w.nodes[s].(ps64 := true, pending := true);
    var w1 := if WillComplete(cfg, w.nodes, s, size) then PutNode(w, s, n) else w;
    if WillComplete(cfg, w.nodes, s, size) {
      PutKeepsQueued(cfg, n0, w, open, s, n);
    } else {
      OpenMore(cfg, n0, w, open, open + {s});
    }
    EmitEffects(cfg, w1, s);
    assert open + {s} - {s} == open - {s};
    if w1.nodes[s].pending {
      QueueThenTrack(cfg, n0, w1, open + {s}, s);
    } else {
      EmitKeepsQueued(cfg, n0, w1, open + {s}, s);
    }
  }

  // ---- the PS64 passes over a group ----

  predicate InGroup(s: Slot, x: Slot) {
    x.tree == s.tree && x.level == 0 && x.num / 16 == s.num / 16
  }

  lemma MemberFacts(s: Slot, i: nat)
    requires i < 16
    ensures InGroup(s, Member(s, i)) && Member(s, i).num % 16 == i
    ensures forall x :: InGroup(s, x) && x.num % 16 == i ==> x == Member(s, i)
  {
  }

  lemma MemberTable(s: Slot, i: nat)
    requires i < 16
    ensures Parent(Member(s, i)) == Slot(s.tree, 1, s.num / 512) && Member(s, i).level == 0 && Member(s, i).tree == s.tree
  {
    MemberFacts(s, i);
    SameTable(Slot(s.tree, 0, s.num), Member(s, i));
  }

  lemma TableAt(s: Slot)
    requires s.level == 0
    ensures Parent(s) == Slot(s.tree, 1, s.num / 512)
  {
  }

  /** What a pass over members i..15 does to the tree and the emitted set. */
  ghost predicate Marked(w: Walk, r: Walk, s: Slot, i: nat, mark: bool) {
    && r.nodes.Keys == w.nodes.Keys
    && (forall x :: x in w.nodes ==>
          if InGroup(s, x) && x.num % 16 >= i
          then && r.nodes[x] == w.nodes[x].(ps64 := mark, pending := r.nodes[x].pending)
               && (w.nodes[x].pending ==> r.nodes[x].pending) && (r.nodes[x].pending ==> x in r.emitted)
          else r.nodes[x] == w.nodes[x])
    && w.emitted <= r.emitted
    && (forall x :: x in r.emitted && x !in w.emitted ==> InGroup(s, x))
  }

  lemma MarkedNothing(w: Walk, s: Slot, i: nat, mark: bool)
    ensures i >= 16 ==> Marked(w, w, s, i, mark)
    ensures i >= 16 ==> forall x :: InGroup(s, x) ==> x.num % 16 < i
  {
  }

  lemma MarkedStep(w: Walk, w1: Walk, r: Walk, s: Slot, i: nat, mark: bool)
    requires i < 16 && Marked(w1, r, s, i + 1, mark)
    requires var m := Member(s, i);
      (m in w.nodes && m in w1.nodes
      && w1.nodes == w.nodes[m := w1.nodes[m]] && w1.nodes[m] == w.nodes[m].(ps64 := mark, pending := w1.nodes[m].pending)
      && (w.nodes[m].pending ==> w1.nodes[m].pending) && (w1.nodes[m].pending ==> m in w1.emitted)
      && w.emitted <= w1.emitted <= w.emitted + {m})
    ensures Marked(w, r, s, i, mark)
  {
    MemberFacts(s, i);
  }

  lemma {:induction false} UpgradeFromQueued(cfg: Config, n0: Forest, w: Walk, open: set<Slot>, s: Slot, i: nat)
    requires Queued(cfg, n0, w, open) && s.tree == w.tree && s.level == 0 && Parent(s) in w.nodes && i <= 16
    requires forall j {:trigger Member(s, j)} :: i <= j < 16 ==> Member(s, j) in w.nodes
    ensures Marked(w, UpgradeFrom(cfg, w, s, i), s, i, true)
    ensures Queued(cfg, n0, UpgradeFrom(cfg, w, s, i), open)
    decreases 16 - i
  {
    hide Queued, Upgrade, Marked, InGroup, Member, Parent;
    TableAt(s);
    MarkedNothing(w, s, i, true);
    if i < 16 {
      var m := Member(s, i);
      MemberFacts(s, i);
      MemberTable(s, i);
      var w1 := Upgrade(cfg, w, m);
      UpgradeKeepsQueued(cfg, n0, w, open, m);
      OpenMore(cfg, n0, w1, if !w.nodes[m].ps64 || m !in w.emitted then open - {m} else open, open);
      UpgradeFromQueued(cfg, n0, w1, open, s, i + 1);
      MarkedStep(w, w1, UpgradeFrom(cfg, w1, s, i + 1), s, i, true);
    }
  }

  /** The pass pays what is owed to a member not yet marked, or not yet out. */
  lemma {:induction false} UpgradeFromPays(cfg: Config, n0: Forest, w: Walk, s: Slot, i: nat, x: Slot)
    requires Queued(cfg, n0, w, {x}) && s.tree == w.tree && s.level == 0 && Parent(s) in w.nodes && i <= 16
    requires forall j {:trigger Member(s, j)} :: i <= j < 16 ==> Member(s, j) in w.nodes
    requires InGroup(s, x) && x.num % 16 >= i && x in w.nodes && (!w.nodes[x].ps64 || x !in w.emitted)
    ensures Queued(cfg, n0, UpgradeFrom(cfg, w, s, i), {})
    decreases 16 - i
  {
    hide Queued, Upgrade, InGroup, Member, Parent;
    TableAt(s);
    var m := Member(s, i);
    MemberFacts(s, i);
    MemberTable(s, i);
    var w1 := Upgrade(cfg, w, m);
    UpgradeKeepsQueued(cfg, n0, w, {x}, m);
    if m == x {
      assert {x} - {m} == {};
      UpgradeFromQueued(cfg, n0, w1, {}, s, i + 1);
    } else {
      assert {x} - {m} == {x};
      UpgradeFromPays(cfg, n0, w1, s, i + 1, x);
    }
  }

  lemma {:induction false} DowngradeFromQueued(cfg: Config, n0: Forest, w: Walk, open: set<Slot>, s: Slot, i: nat)
    requires Queued(cfg, n0, w, open) && s.tree == w.tree && s.level == 0 && Parent(s) in w.nodes && i <= 16
    requires forall j {:trigger Member(s, j)} :: i <= j < 16 ==> Member(s, j) in w.nodes
    ensures Marked(w, DowngradeFrom(cfg, w, s, i), s, i, false)
    ensures Queued(cfg, n0, DowngradeFrom(cfg, w, s, i), open)
    decreases 16 - i
  {
    hide Queued, Downgrade, Marked, InGroup, Member, Parent;
    TableAt(s);
    MarkedNothing(w, s, i, false);
    if i < 16 {
      var m := Member(s, i);
      MemberFacts(s, i);
      MemberTable(s, i);
      var w1 := Downgrade(cfg, w, m);
      DowngradeKeepsQueued(cfg, n0, w, open, m);
      OpenMore(cfg, n0, w1, open - {m}, open);
      DowngradeFromQueued(cfg, n0, w1, open, s, i + 1);
      MarkedStep(w, w1, DowngradeFrom(cfg, w1, s, i + 1), s, i, false);
    }
  }

  /** The pass pays what is owed to a member it still has to visit. */
  lemma {:induction false} DowngradeFromPays(cfg: Config, n0: Forest, w: Walk, s: Slot, i: nat, x: Slot)
    requires Queued(cfg, n0, w, {x}) && s.tree == w.tree && s.level == 0 && Parent(s) in w.nodes && i <= 16
    requires forall j {:trigger Member(s, j)} :: i <= j < 16 ==> Member(s, j) in w.nodes
    requires InGroup(s, x) && x.num % 16 >= i
    ensures Queued(cfg, n0, DowngradeFrom(cfg, w, s, i), {})
    decreases 16 - i
  {
    hide Queued, Downgrade, InGroup, Member, Parent;
    TableAt(s);
    var m := Member(s, i);
    MemberFacts(s, i);
    MemberTable(s, i);
    var w1 := Downgrade(cfg, w, m);
    DowngradeKeepsQueued(cfg, n0, w, {x}, m);
    if m == x {
      assert {x} - {m} == {};
      DowngradeFromQueued(cfg, n0, w1, {}, s, i + 1);
    } else {
      assert {x} - {m} == {x};
      DowngradeFromPays(cfg, n0, w1, s, i + 1, x);
    }
  }

  /** Same frames and flags, except that s may carry another entry; completeness before and after pins that entry down. */
  lemma GroupPinsEntry(cfg: Config, nodes: Forest, nodes': Forest, s: Slot)
    requires s in nodes && s in nodes' && s.level == 0 && nodes' == nodes[s := nodes'[s]]
    requires GroupComplete(cfg, nodes, s) && GroupComplete(cfg, nodes', s)
    requires nodes[s].kind.Page? && nodes'[s].kind.Page? && nodes'[s].ps64 == nodes[s].ps64
    ensures EntryOf(cfg, nodes'[s]) == EntryOf(cfg, nodes[s])
  {
    var k := s.num % 16;
    assert s == Member(s, k);
    var other := Member(s, if k == 0 then 1 else 0);
    assert other != s && nodes'[other] == nodes[other];
    assert FlagsOf(cfg, nodes'[s]) == FlagsOf(cfg, nodes'[other]);
    assert FlagsOf(cfg, nodes[s]) == FlagsOf(cfg, nodes[other]);
  }

  lemma GroupUntouched(cfg: Config, nodes: Forest, nodes': Forest, s: Slot)
    requires WasGroup(cfg, nodes, s)
    requires forall x :: x in nodes && InGroup(s, x) ==> x in nodes' && nodes'[x] == nodes[x]
    ensures WasGroup(cfg, nodes', s)
  {
    forall i | 0 <= i < 16 ensures InGroup(s, Member(s, i)) { MemberFacts(s, i); }
  }

  /** Completeness looks at frames and flags only. */
  lemma GroupIgnoresMarks(cfg: Config, nodes: Forest, nodes': Forest, s: Slot)
    requires GroupComplete(cfg, nodes, s) && nodes'.Keys == nodes.Keys
    requires forall x :: x in nodes && InGroup(s, x) ==> nodes'[x] == nodes[x].(ps64 := nodes'[x].ps64, pending := nodes'[x].pending)
    ensures GroupComplete(cfg, nodes', s)
  {
    forall i | 0 <= i < 16 ensures InGroup(s, Member(s, i)) { MemberFacts(s, i); }
    forall i | 0 <= i < 16 ensures FlagsOf(cfg, nodes'[Member(s, i)]) == FlagsOf(cfg, nodes[Member(s, i)]) {
      assert InGroup(s, Member(s, i));
    }
  }

  lemma Ps64VisitKeepsQueued(cfg: Config, n0: Forest, w: Walk, open: set<Slot>, s: Slot, wasGroup: bool, size: nat)
    requires Queued(cfg, n0, w, open) && Hangs(w, s) && open <= {s} && s.level == 0
    requires GroupComplete(cfg, w.nodes, s) && s in open && s in w.emitted && w.nodes[s].ps64 ==>
      LastQueued(w, s) == Some(EntryOf(cfg, w.nodes[s]))
    requires wasGroup ==> forall j {:trigger Member(s, j)} :: 0 <= j < 16 ==> Member(s, j) in w.nodes
    ensures var r := Ps64Visit(cfg, w, s, wasGroup, size);
      && Queued(cfg, n0, r, {})
      && (r.nodes[s].pending ==> s in r.emitted)
      && (if GroupComplete(cfg, w.nodes, s) then Marked(w, r, s, 0, true)
          else if wasGroup then Marked(w, r, s, 0, false)
          else r.nodes == w.nodes[s := r.nodes[s]] && w.emitted <= r.emitted <= w.emitted + {s})
  {
    hide Queued, LastQueued, EntryOf, UpgradeFrom, DowngradeFrom, Speculate;
    if GroupComplete(cfg, w.nodes, s) {
      EmittedNodes(cfg, n0, w, open);
      if s in open && s in w.emitted && w.nodes[s].ps64 {
        Settled(cfg, n0, w, open, s);
        assert open - {s} == {};
        UpgradeFromQueued(cfg, n0, w, {}, s, 0);
      } else if s in open {
        assert open == {s};
        UpgradeFromPays(cfg, n0, w, s, 0, s);
        UpgradeFromQueued(cfg, n0, w, {s}, s, 0);
      } else {
        assert open == {};
        UpgradeFromQueued(cfg, n0, w, {}, s, 0);
      }
      assert InGroup(s, s);
    } else if wasGroup {
      DowngradeFromQueued(cfg, n0, w, open, s, 0);
      assert InGroup(s, s);
      if s in open {
        assert open == {s};
        DowngradeFromPays(cfg, n0, w, s, 0, s);
      } else {
        assert open == {};
      }
    } else {
      SpeculateKeepsQueued(cfg, n0, w, open, s, size);
      assert open - {s} == {};
    }
  }

  // ---- one page ----

  /** Among entries not yet visited, a mark already queued in this walk belongs to a whole group. */
  ghost predicate MarksOk(cfg: Config, w: Walk, tree: nat, va: nat) {
    forall s :: s in w.emitted && s in w.nodes && w.nodes[s].ps64 && Under4KB(w.nodes, tree, s) && s.num >= va / PAGE_4KB ==>
      WasGroup(cfg, w.nodes, s)
  }

  predicate Under4KB(nodes: Forest, tree: nat, s: Slot) {
    s.tree == tree && s.level == 0 && Parent(s) in nodes && nodes[Parent(s)].kind.Pte4KB?
  }

  /** The tree only gains nodes, and only tables are newly emitted. */
  ghost predicate Widened(w: Walk, r: Walk) {
    && (forall x :: x in w.nodes ==> x in r.nodes && r.nodes[x] == w.nodes[x])
    && w.emitted <= r.emitted
    && (forall x :: x in r.emitted && x !in w.emitted ==> x.level > 0 && x in r.nodes && IsTable(r.nodes[x].kind))
  }

  lemma WidenedKeepsMarks(cfg: Config, w: Walk, r: Walk, tree: nat, va: nat, va': nat)
    requires MarksOk(cfg, w, tree, va) && Widened(w, r) && va / PAGE_4KB <= va' / PAGE_4KB
    requires WellFormed(cfg, w.nodes) && ValidConfig(cfg) && (forall x :: x in w.emitted ==> x in w.nodes)
    ensures MarksOk(cfg, r, tree, va')
  {
    hide WellFormed, GroupComplete, InGroup;
    forall s | s in r.emitted && s in r.nodes && r.nodes[s].ps64 && Under4KB(r.nodes, tree, s) && s.num >= va' / PAGE_4KB
      ensures WasGroup(cfg, r.nodes, s)
    {
      ParentKept(cfg, w.nodes, s);
      assert WasGroup(cfg, w.nodes, s);
      GroupUntouched(cfg, w.nodes, r.nodes, s);
    }
  }

  lemma ParentKept(cfg: Config, nodes: Forest, s: Slot)
    requires WellFormed(cfg, nodes) && s in nodes && s.level == 0 && ValidConfig(cfg)
    ensures Parent(s) in nodes
  {
    assert Placed(cfg, nodes, s);
  }

  /** A page of another size: its one leaf is not a 4KB entry, so no mark is touched. */
  lemma OtherLeafKeepsMarks(cfg: Config, w: Walk, r: Walk, tree: nat, va: nat, va': nat, leaf: Slot)
    requires MarksOk(cfg, w, tree, va) && va / PAGE_4KB <= va' / PAGE_4KB
    requires forall x :: x in w.nodes && x != leaf ==> x in r.nodes && r.nodes[x] == w.nodes[x]
    requires w.emitted <= r.emitted <= w.emitted + {leaf}
    requires WellFormed(cfg, w.nodes) && ValidConfig(cfg) && (forall x :: x in w.emitted ==> x in w.nodes)
    requires leaf.level > 0 || (Parent(leaf) in w.nodes && w.nodes[Parent(leaf)].kind.Pte64KB?)
    requires Evolves(w.nodes, r.nodes, Some(leaf))
    ensures MarksOk(cfg, r, tree, va')
  {
    hide WellFormed, GroupComplete, InGroup;
    forall s | s in r.emitted && s in r.nodes && r.nodes[s].ps64 && Under4KB(r.nodes, tree, s) && s.num >= va' / PAGE_4KB
      ensures WasGroup(cfg, r.nodes, s)
    {
      if leaf.level == 0 { assert r.nodes[Parent(leaf)].kind.Pte64KB?; }
      ParentKept(cfg, w.nodes, s);
      assert WasGroup(cfg, w.nodes, s);
      forall x | x in w.nodes && InGroup(s, x) ensures x in r.nodes && r.nodes[x] == w.nodes[x] {
        SameTable(s, x);
      }
      GroupUntouched(cfg, w.nodes, r.nodes, s);
    }
  }

  lemma SameTable(s: Slot, x: Slot)
    requires InGroup(s, x) && s.level == 0
    ensures Parent(x) == Parent(s)
  {
    TableOfGroup(s.num);
    TableOfGroup(x.num);
  }

  lemma TableOfGroup(n: nat)
    ensures n / 512 == n / 16 / 32
  {
  }

  /** After a 4KB page: members of its group are settled one way or the other, other groups are as they were. */
  lemma SmallLeafKeepsMarks(cfg: Config, q: Request, w: Walk, w1: Walk, r: Walk, s: Slot, va: nat, va': nat)
    requires MarksOk(cfg, w, s.tree, va) && s.level == 0 && s in r.nodes && s.num == va / PAGE_4KB && va' / PAGE_4KB > s.num
    requires w1.nodes.Keys == w.nodes.Keys + {s} && (forall x :: x in w.nodes && x != s ==> w1.nodes[x] == w.nodes[x])
    requires w1.emitted == w.emitted && (forall x :: x in w.emitted ==> x in w.nodes)
    requires Evolves(w.nodes, r.nodes, Some(s)) && WellFormed(cfg, w.nodes) && ValidConfig(cfg)
    requires if GroupComplete(cfg, w1.nodes, s) then Marked(w1, r, s, 0, true)
             else if WasGroup(cfg, w.nodes, s) then Marked(w1, r, s, 0, false)
             else r.nodes == w1.nodes[s := r.nodes[s]] && w1.emitted <= r.emitted <= w1.emitted + {s}
    ensures MarksOk(cfg, r, s.tree, va')
  {
    hide WellFormed, GroupComplete, FlagsOf;
    forall y | y in r.emitted && y in r.nodes && r.nodes[y].ps64 && Under4KB(r.nodes, s.tree, y) && y.num >= va' / PAGE_4KB
      ensures WasGroup(cfg, r.nodes, y)
    {
      if InGroup(s, y) {
        GroupMateKeepsMarks(cfg, w, w1, r, s, y);
      } else {
        ParentKept(cfg, w.nodes, y);
        assert WasGroup(cfg, w.nodes, y);
        forall x | x in w.nodes && InGroup(y, x) ensures x in r.nodes && r.nodes[x] == w.nodes[x] {
          assert !InGroup(s, x);
        }
        GroupUntouched(cfg, w.nodes, r.nodes, y);
      }
    }
  }

  lemma GroupMateKeepsMarks(cfg: Config, w: Walk, w1: Walk, r: Walk, s: Slot, y: Slot)
    requires InGroup(s, y) && y != s && s.level == 0 && s in r.nodes && y in r.emitted && y in r.nodes && r.nodes[y].ps64
    requires y in w.emitted && y in w.nodes && w.nodes[y].ps64 ==> WasGroup(cfg, w.nodes, y)
    requires w1.nodes.Keys == w.nodes.Keys + {s} && (forall x :: x in w.nodes && x != s ==> w1.nodes[x] == w.nodes[x])
    requires w1.emitted == w.emitted && (forall x :: x in w.emitted ==> x in w.nodes)
    requires if GroupComplete(cfg, w1.nodes, s) then Marked(w1, r, s, 0, true)
             else if WasGroup(cfg, w.nodes, s) then Marked(w1, r, s, 0, false)
             else r.nodes == w1.nodes[s := r.nodes[s]] && w1.emitted <= r.emitted <= w1.emitted + {s}
    ensures WasGroup(cfg, r.nodes, y)
  {
    hide FlagsOf, GroupComplete;
    SameGroupSameTest(cfg, s, y);
    if GroupComplete(cfg, w1.nodes, s) {
      GroupIgnoresMarks(cfg, w1.nodes, r.nodes, s);
      CompleteHasFirst(cfg, w1.nodes, s);
    }
  }

  lemma CompleteHasFirst(cfg: Config, nodes: Forest, s: Slot)
    requires GroupComplete(cfg, nodes, s)
    ensures Member(s, 0) in nodes && InGroup(s, Member(s, 0))
  {
    MemberFacts(s, 0);
  }

  lemma SameGroupSameTest(cfg: Config, s: Slot, y: Slot)
    requires InGroup(s, y)
    ensures forall nodes :: GroupComplete(cfg, nodes, s) == GroupComplete(cfg, nodes, y)
    ensures forall nodes :: WasGroup(cfg, nodes, s) == WasGroup(cfg, nodes, y)
  {
    hide FlagsOf;
    assert forall i :: Member(s, i) == Member(y, i);
    forall nodes ensures GroupComplete(cfg, nodes, s) == GroupComplete(cfg, nodes, y) {
      SameGroupSameComplete(cfg, nodes, s, y);
    }
  }

  lemma SameGroupSameComplete(cfg: Config, nodes: Forest, s: Slot, y: Slot)
    requires InGroup(s, y)
    ensures GroupComplete(cfg, nodes, s) == GroupComplete(cfg, nodes, y)
  {
    hide FlagsOf;
    assert forall i {:trigger Member(s, i)} {:trigger Member(y, i)} :: Member(s, i) == Member(y, i);
  }

  lemma NoChildren(cfg: Config, nodes: Forest, s: Slot)
    requires WellFormed(cfg, nodes) && s.level < cfg.levels && (s in nodes ==> !IsTable(nodes[s].kind))
    ensures forall x :: x in nodes ==> Parent(x) != s
  {
    forall x | x in nodes ensures Parent(x) != s { assert Placed(cfg, nodes, x); }
  }

  lemma PlaceLeafKeepsQueued(cfg: Config, q: Request, n0: Forest, w: Walk, s: Slot, kind: Kind, pageSize: nat, bank: nat, target: nat, info: PageInfo)
    requires Queued(cfg, n0, w, {}) && pageSize > 0
    requires WellFormed(cfg, w.nodes) && s.level < cfg.levels && (s in w.nodes ==> !IsTable(w.nodes[s].kind))
    ensures var r := PlaceLeaf(q, w, s, kind, pageSize, bank, target, info);
      && Queued(cfg, n0, r, if s !in w.nodes || q.mapping then {s} else {})
      && r.emitted == w.emitted && (forall x :: LastQueued(r, x) == LastQueued(w, x))
      && (s in w.nodes && !q.mapping ==> r == w)
  {
    hide Queued, PhysicalMemory.Reserve, WellFormed, LastQueued;
    NoChildren(cfg, w.nodes, s);
    var r := PlaceLeaf(q, w, s, kind, pageSize, bank, target, info);
    QueueUnchanged(w, r);
    assert {} + {s} == {s};
    if s !in w.nodes {
      var w1 := AddLeaf(q, w, s, kind, pageSize, bank, target, info);
      PutKeepsQueued(cfg, n0, w, {}, s, w1.nodes[s]);
      OnlyQueuesMatter(cfg, n0, PutNode(w, s, w1.nodes[s]), w1, {} + {s});
      if q.mapping {
        PutKeepsQueued(cfg, n0, w1, {s}, s, r.nodes[s]);
        OnlyQueuesMatter(cfg, n0, PutNode(w1, s, r.nodes[s]), r, {s} + {s});
        assert {s} + {s} == {s};
      } else {
        OnlyQueuesMatter(cfg, n0, w1, r, {s});
      }
    } else if q.mapping {
      PutKeepsQueued(cfg, n0, w, {}, s, r.nodes[s]);
      assert r == PutNode(w, s, r.nodes[s]);
    }
  }

  lemma OnlyQueuesMatter(cfg: Config, n0: Forest, w: Walk, r: Walk, open: set<Slot>)
    requires Queued(cfg, n0, w, open)
    requires r.tree == w.tree && r.nodes == w.nodes && r.table == w.table && r.emitted == w.emitted && r.pendingNodes == w.pendingNodes
    ensures Queued(cfg, n0, r, open)
  {
    hide EntryOf, EntryAddress;
  }

  lemma AddTableKeepsQueued(cfg: Config, n0: Forest, w: Walk, s: Slot, kind: Kind)
    requires Queued(cfg, n0, w, {}) && WellFormed(cfg, w.nodes) && s !in w.nodes && s.level < cfg.levels
    ensures var r := AddTable(w, s, kind);
      && Queued(cfg, n0, r, {s}) && r.emitted == w.emitted && s !in r.emitted
      && r.nodes == w.nodes[s := r.nodes[s]] && r.nodes[s].pending
  {
    hide Queued, PhysicalMemory.Reserve, WellFormed;
    NoChildren(cfg, w.nodes, s);
    EmittedNodes(cfg, n0, w, {});
    var r := AddTable(w, s, kind);
    PutKeepsQueued(cfg, n0, w, {}, s, r.nodes[s]);
    OnlyQueuesMatter(cfg, n0, PutNode(w, s, r.nodes[s]), r, {} + {s});
    assert {} + {s} == {s};
  }

  /** The tables on the path are all in the tree, and none is left pending without its entry going out. */
  ghost predicate PathOut(tree: nat, va: nat, w: Walk, low: nat, high: nat)
    requires high <= 5
  {
    forall l :: low <= l < high ==>
      (TableSlot(tree, l, va) in w.nodes
       && (w.nodes[TableSlot(tree, l, va)].pending ==> TableSlot(tree, l, va) in w.emitted))
  }

  /** The table of one level: made if absent, and streamed. */
  function TableStep(cfg: Config, q: Request, w: Walk, s: Slot): (r: Walk)
    requires s.level < 5
  {
    PlainVisit(cfg, if s in w.nodes then w else AddTable(w, s, TableKind(s.level)), s, s !in w.nodes || q.mapping)
  }

  lemma TableStepKeepsQueued(cfg: Config, q: Request, n0: Forest, w: Walk, va: nat, level: nat)
    requires Ready(cfg, q, w.nodes, va) && 2 <= level < cfg.levels && TableSlot(q.tree, level + 1, va) in w.nodes
    requires w.tree == q.tree && Queued(cfg, n0, w, {})
    ensures var s := TableSlot(q.tree, level, va); var r := TableStep(cfg, q, w, s);
      && Queued(cfg, n0, r, {}) && Widened(w, r) && Ready(cfg, q, r.nodes, va) && r.tree == q.tree
      && s in r.nodes && (r.nodes[s].pending ==> s in r.emitted)
  {
    hide AddTable, PlainVisit, Grown, WellFormed, Span, Queued;
    var s := TableSlot(q.tree, level, va);
    ChildIsTableSlot(cfg, q.tree, level, va);
    TableAbove(cfg, w.nodes, TableSlot(q.tree, level + 1, va));
    if s in w.nodes { TableAbove(cfg, w.nodes, s); }
    var w1 := if s in w.nodes then w else AddTable(w, s, TableKind(level));
    GrownReflexive(cfg, q.tree, va, w.nodes);
    if s !in w.nodes {
      AddTableFacts(cfg, w, va, s, TableKind(level));
      AddTableKeepsQueued(cfg, n0, w, s, TableKind(level));
    }
    var open := if s in w.nodes then {} else {s};
    PlainVisitKeepsQueued(cfg, n0, w1, open, s, s !in w.nodes || q.mapping);
    assert open - {s} == {};
    PlainVisitWidens(cfg, w1, s, s !in w.nodes || q.mapping);
    GrownStaysReady(cfg, q, va, w.nodes, w1.nodes);
  }

  lemma {:induction false} TablesDownKeepsQueued(cfg: Config, q: Request, n0: Forest, w: Walk, va: nat, level: nat)
    requires Ready(cfg, q, w.nodes, va) && 1 <= level < cfg.levels <= 5 && TableSlot(q.tree, level + 1, va) in w.nodes
    requires w.tree == q.tree && Queued(cfg, n0, w, {})
    ensures var (r, found) := TablesDown(cfg, q, w, va, level);
      && Queued(cfg, n0, r, {}) && Widened(w, r) && (found ==> PathOut(q.tree, va, r, 2, level + 1))
    decreases level
  {
    hide AddTable, PlainVisit, Ready, Span, Queued;
    if level >= 2 {
      var s := TableSlot(q.tree, level, va);
      if s in w.nodes || !q.mode.Expect? {
        TableStepKeepsQueued(cfg, q, n0, w, va, level);
        var w2 := TableStep(cfg, q, w, s);
        TablesDownKeepsQueued(cfg, q, n0, w2, va, level - 1);
        PathExtends(q.tree, va, w2, TablesDown(cfg, q, w2, va, level - 1).0, level, TablesDown(cfg, q, w2, va, level - 1).1);
      }
    }
  }

  lemma PathExtends(tree: nat, va: nat, w: Walk, r: Walk, level: nat, found: bool)
    requires level < 5 && Widened(w, r) && (found ==> PathOut(tree, va, r, 2, level))
    requires TableSlot(tree, level, va) in w.nodes
    requires w.nodes[TableSlot(tree, level, va)].pending ==> TableSlot(tree, level, va) in w.emitted
    ensures found ==> PathOut(tree, va, r, 2, level + 1)
  {
    hide Span;
  }

  lemma PlainVisitWidens(cfg: Config, w: Walk, s: Slot, force: bool)
    requires s in w.nodes && s.level < 5
    ensures var r := PlainVisit(cfg, w, s, force); r.nodes == w.nodes && w.emitted <= r.emitted <= w.emitted + {s}
  {
    hide EntryOf, EntryAddress;
  }

  /** Everything a page visit promises about the stream. */
  ghost predicate StreamedVisit(cfg: Config, q: Request, n0: Forest, w: Walk, va: nat, v: Visit)
    requires cfg.levels <= 5
  {
    && Queued(cfg, n0, v.w, {}) && w.emitted <= v.w.emitted
    && (!q.mapping ==> forall x :: x in v.w.emitted && x !in w.emitted && x in w.nodes && x.level > 0 ==> !w.nodes[x].kind.Page2MB?)
    && (v.leaf.Some? && v.leaf.value in v.w.nodes && v.pageSize > 0 ==>
          && PathOut(q.tree, va, v.w, if v.leaf.value.level == 1 then 2 else 1, cfg.levels)
          && (v.w.nodes[v.leaf.value].pending ==>
                v.leaf.value in v.w.emitted || (v.leaf.value.level == 1 && !q.mapping && v.leaf.value in w.nodes))
          && (Ps64Applicable(cfg, q) ==> MarksOk(cfg, v.w, q.tree, PageEnd(va, v.pageSize))))
  }

  lemma PteStepKeepsQueued(cfg: Config, q: Request, n0: Forest, w: Walk, va: nat, size: nat, bank: nat, target: nat, info: PageInfo)
    requires Ready(cfg, q, w.nodes, va) && w.tree == q.tree && Queued(cfg, n0, w, {})
    requires TableSlot(q.tree, 1, va) in w.nodes && IsTable(w.nodes[TableSlot(q.tree, 1, va)].kind)
    requires Ps64Applicable(cfg, q) ==> MarksOk(cfg, w, q.tree, va)
    ensures var v := PteStep(cfg, q, w, va, size, bank, target, info);
      && Queued(cfg, n0, v.w, {}) && w.emitted <= v.w.emitted
      && (forall x :: x in v.w.emitted && x !in w.emitted ==> x.level == 0)
      && (v.leaf.Some? ==>
            && v.leaf.value.level == 0
            && (v.w.nodes[v.leaf.value].pending ==> v.leaf.value in v.w.emitted)
            && (forall x :: x in w.nodes && x.level > 0 ==> x in v.w.nodes && v.w.nodes[x] == w.nodes[x])
            && (Ps64Applicable(cfg, q) ==> MarksOk(cfg, v.w, q.tree, PageEnd(va, v.pageSize))))
  {
    hide VisitLeaf, PlaceLeaf, LeafSlot, Index, WellFormed, Evolves, Queued, LastQueued, MarksOk, PageEnd;
    var p := TableSlot(q.tree, 1, va);
    var kind := w.nodes[p].kind;
    var pageSize := PteSize(kind);
    var s := LeafSlot(cfg, q.tree, kind, va);
    LeafSlotParent(cfg, q.tree, kind, va);
    LeafSlotLevel(cfg, q.tree, kind, va);
    IndexBound(cfg, kind, va);
    PdeKindOfTable(cfg, w.nodes, p);
    if s in w.nodes { LeafUnderTable(cfg, w.nodes, s); }
    var v := PteStep(cfg, q, w, va, size, bank, target, info);
    if v.leaf.Some? {
      PlaceLeafFacts(cfg, q, w, s, Page, pageSize, bank, target, info);
      PlaceLeafKeepsQueued(cfg, q, n0, w, s, Page, pageSize, bank, target, info);
      var w1 := PlaceLeaf(q, w, s, Page, pageSize, bank, target, info);
      VisitLeafFacts(cfg, q, w.nodes, w1, s, pageSize, size);
      SmallLeafSlot(cfg, q.tree, va);
      VisitLeafKeepsQueued(cfg, q, n0, w, w1, s, pageSize, size, va);
    }
  }

  lemma PdeKindOfTable(cfg: Config, nodes: Forest, s: Slot)
    requires WellFormed(cfg, nodes) && s in nodes && s.level == 1 && IsTable(nodes[s].kind)
    ensures nodes[s].kind.Pte4KB? || nodes[s].kind.Pte64KB?
  {
    assert Placed(cfg, nodes, s);
  }

  /** Streaming the leaf, after it was placed in w1. */
  lemma VisitLeafKeepsQueued(cfg: Config, q: Request, n0: Forest, w: Walk, w1: Walk, s: Slot, pageSize: nat, size: nat, va: nat)
    requires ValidConfig(cfg) && WellFormed(cfg, w.nodes) && Queued(cfg, n0, w, {})
    requires s.level == 0 && w.tree == q.tree && w1.tree == w.tree && s.tree == q.tree && s in w1.nodes && w1.nodes[s].kind.Page?
    requires s in w.nodes ==> w.nodes[s].kind.Page?
    requires Parent(s) in w.nodes && pageSize == PteSize(w.nodes[Parent(s)].kind)
    requires w.nodes[Parent(s)].kind.Pte4KB? || w.nodes[Parent(s)].kind.Pte64KB?
    requires w.nodes[Parent(s)].kind.Pte4KB? ==> s.num == va / PAGE_4KB
    requires Queued(cfg, n0, w1, if s !in w.nodes || q.mapping then {s} else {})
    requires w1.emitted == w.emitted && (forall x :: LastQueued(w1, x) == LastQueued(w, x))
    requires s in w.nodes && !q.mapping ==> w1 == w
    requires w1.nodes.Keys == w.nodes.Keys + {s} && (forall x :: x in w.nodes && x != s ==> w1.nodes[x] == w.nodes[x])
    requires Evolves(w.nodes, w1.nodes, Some(s))
    requires s in w.nodes ==> w1.nodes[s].ps64 == w.nodes[s].ps64
    requires Ps64Applicable(cfg, q) ==> MarksOk(cfg, w, q.tree, va)
    ensures var r := VisitLeaf(cfg, q, w.nodes, w1, s, pageSize, size);
      && Queued(cfg, n0, r, {}) && w.emitted <= r.emitted
      && (forall x :: x in r.emitted && x !in w.emitted ==> x.level == 0)
      && (r.nodes[s].pending ==> s in r.emitted)
      && (forall x :: x in w.nodes && x.level > 0 ==> x in r.nodes && r.nodes[x] == w.nodes[x])
      && (Ps64Applicable(cfg, q) ==> MarksOk(cfg, r, q.tree, PageEnd(va, pageSize)))
  {
    hide WellFormed, Evolves, Queued, LastQueued, MarksOk, EntryOf, Ps64Visit, PlainVisit, GroupComplete;
    var open := if s !in w.nodes || q.mapping then {s} else {};
    var r := VisitLeaf(cfg, q, w.nodes, w1, s, pageSize, size);
    EmittedNodes(cfg, n0, w, {});
    PageEndAfter(va, pageSize);
    assert open - {s} == {};
    if Ps64Applicable(cfg, q) && pageSize == PAGE_4KB {
      var was := WasGroup(cfg, w.nodes, s);
      if GroupComplete(cfg, w1.nodes, s) && s in open && s in w.emitted && w1.nodes[s].ps64 {
        MarkedIsCurrent(cfg, q, n0, w, w1, s, va);
      }
      if was { WasGroupMembers(cfg, w.nodes, s); }
      Ps64VisitKeepsQueued(cfg, n0, w1, open, s, was, size);
      Ps64VisitEvolves(cfg, w1, s, was, size);
      EvolvesThrough(w.nodes, w1.nodes, r.nodes, s);
      NextPageIndex(va);
      SmallLeafKeepsMarks(cfg, q, w, w1, r, s, va, PageEnd(va, pageSize));
    } else {
      PlainVisitKeepsQueued(cfg, n0, w1, open, s, s !in w.nodes || q.mapping);
      PlainVisitWidens(cfg, w1, s, s !in w.nodes || q.mapping);
      if Ps64Applicable(cfg, q) {
        PageIndexMonotone(va, PageEnd(va, pageSize));
        OtherLeafKeepsMarks(cfg, w, r, q.tree, va, PageEnd(va, pageSize), s);
      }
    }
  }

  lemma NextPageIndex(va: nat)
    ensures PageEnd(va, PAGE_4KB) / PAGE_4KB > va / PAGE_4KB
  {
  }

  lemma PageIndexMonotone(a: nat, b: nat)
    requires a <= b
    ensures a / PAGE_4KB <= b / PAGE_4KB
  {
  }

  lemma EvolvesThrough(a: Forest, b: Forest, c: Forest, s: Slot)
    requires Evolves(a, b, Some(s)) && Evolves(b, c, None)
    ensures Evolves(a, c, Some(s))
  {
  }

  lemma WasGroupMembers(cfg: Config, nodes: Forest, s: Slot)
    requires WasGroup(cfg, nodes, s)
    ensures forall j {:trigger Member(s, j)} :: 0 <= j < 16 ==> Member(s, j) in nodes
  {
  }

  /** A slot queued earlier in this walk with its mark, whose group is still complete, has not changed. */
  lemma MarkedIsCurrent(cfg: Config, q: Request, n0: Forest, w: Walk, w1: Walk, s: Slot, va: nat)
    requires Queued(cfg, n0, w, {}) && MarksOk(cfg, w, s.tree, va)
    requires s.level == 0 && s in w.emitted && s in w1.nodes && w1.nodes[s].kind.Page? && w1.nodes[s].ps64
    requires s in w.nodes ==> w.nodes[s].kind.Page? && w.nodes[s].ps64 == w1.nodes[s].ps64
    requires Parent(s) in w.nodes && w.nodes[Parent(s)].kind.Pte4KB? && s.num == va / PAGE_4KB
    requires w1.nodes.Keys == w.nodes.Keys + {s} && (forall x :: x in w.nodes && x != s ==> w1.nodes[x] == w.nodes[x])
    requires GroupComplete(cfg, w1.nodes, s) && (forall x :: LastQueued(w1, x) == LastQueued(w, x))
    ensures LastQueued(w1, s) == Some(EntryOf(cfg, w1.nodes[s]))
  {
    hide Queued, LastQueued, EntryOf, FlagsOf;
    EmittedNodes(cfg, n0, w, {});
    EmittedCurrent(cfg, n0, w, {}, s);
    assert WasGroup(cfg, w.nodes, s);
    assert w1.nodes == w.nodes[s := w1.nodes[s]];
    GroupPinsEntry(cfg, w.nodes, w1.nodes, s);
  }

  lemma LargePageStepKeepsQueued(cfg: Config, q: Request, n0: Forest, w: Walk, va: nat, bank: nat, target: nat, info: PageInfo)
    requires Ready(cfg, q, w.nodes, va) && w.tree == q.tree && Queued(cfg, n0, w, {}) && TableSlot(q.tree, 2, va) in w.nodes
    requires var s := TableSlot(q.tree, 1, va); s in w.nodes ==> w.nodes[s].kind.Page2MB?
    requires Ps64Applicable(cfg, q) ==> MarksOk(cfg, w, q.tree, va)
    ensures var v := LargePageStep(cfg, q, w, TableSlot(q.tree, 1, va), bank, target, info);
      && v.leaf == Some(TableSlot(q.tree, 1, va))
      && Queued(cfg, n0, v.w, {}) && w.emitted <= v.w.emitted
      && v.w.emitted <= w.emitted + {v.leaf.value}
      && (v.w.nodes[v.leaf.value].pending ==> v.leaf.value in v.w.emitted)
      && (forall x :: x in w.nodes && x != v.leaf.value ==> x in v.w.nodes && v.w.nodes[x] == w.nodes[x])
      && (Ps64Applicable(cfg, q) ==> MarksOk(cfg, v.w, q.tree, PageEnd(va, PAGE_2MB)))
  {
    hide PlaceLeaf, PlainVisit, WellFormed, Queued, LastQueued, MarksOk, Evolves;
    var s := TableSlot(q.tree, 1, va);
    ChildIsTableSlot(cfg, q.tree, 1, va);
    TableAbove(cfg, w.nodes, TableSlot(q.tree, 2, va));
    var target' := if q.mapping then Realign(target) else target;
    PlaceLeafFacts(cfg, q, w, s, Page2MB, PAGE_2MB, bank, target', info);
    PlaceLeafKeepsQueued(cfg, q, n0, w, s, Page2MB, PAGE_2MB, bank, target', info);
    var w1 := PlaceLeaf(q, w, s, Page2MB, PAGE_2MB, bank, target', info);
    var open := if s !in w.nodes || q.mapping then {s} else {};
    assert open - {s} == {};
    PlainVisitKeepsQueued(cfg, n0, w1, open, s, true);
    PlainVisitWidens(cfg, w1, s, true);
    if Ps64Applicable(cfg, q) {
      EmittedNodes(cfg, n0, w, {});
      PageEndAfter(va, PAGE_2MB);
      PageIndexMonotone(va, PageEnd(va, PAGE_2MB));
      OtherLeafKeepsMarks(cfg, w, PlainVisit(cfg, w1, s, true), q.tree, va, PageEnd(va, PAGE_2MB), s);
    }
  }

  lemma PdeStepKeepsQueued(cfg: Config, q: Request, n0: Forest, w: Walk, va: nat, size: nat, bank: nat, target: nat, info: PageInfo)
    requires Ready(cfg, q, w.nodes, va) && w.tree == q.tree && Queued(cfg, n0, w, {}) && PathOut(q.tree, va, w, 2, cfg.levels)
    requires TableSlot(q.tree, 2, va) in w.nodes
    requires Ps64Applicable(cfg, q) ==> MarksOk(cfg, w, q.tree, va)
    ensures StreamedVisit(cfg, q, n0, w, va, PdeStep(cfg, q, w, va, size, bank, target, info))
  {
    hide PteStep, PlainVisit, LargePageStep, AddTable, WellFormed, Grown, Span, Queued, LastQueued, MarksOk, PageEnd;
    var s := TableSlot(q.tree, 1, va);
    ChildIsTableSlot(cfg, q.tree, 1, va);
    TableAbove(cfg, w.nodes, TableSlot(q.tree, 2, va));
    EmittedNodes(cfg, n0, w, {});
    GrownReflexive(cfg, q.tree, va, w.nodes);
    if s in w.nodes { KindAtPde(cfg, w.nodes, s); }
    if s in w.nodes && !w.nodes[s].kind.Page2MB? {
      var w1 := PlainVisit(cfg, w, s, q.mapping);
      PlainVisitKeepsQueued(cfg, n0, w, {}, s, q.mapping);
      PlainVisitWidens(cfg, w, s, q.mapping);
      assert {} - {s} == {};
      SmallPageStreams(cfg, q, n0, w, w1, va, size, bank, target, info);
    } else if (s in w.nodes && q.mapping) || (s !in w.nodes && !q.mode.Expect? && q.pageSize == PAGE_2MB) {
      LargePageStepKeepsQueued(cfg, q, n0, w, va, bank, target, info);
      PathKept(q.tree, va, w, LargePageStep(cfg, q, w, s, bank, target, info).w, cfg.levels);
      assert LargePageStep(cfg, q, w, s, bank, target, info).leaf == Some(s)
             && LargePageStep(cfg, q, w, s, bank, target, info).pageSize == PAGE_2MB by { LargeLeaf(cfg, q, w, s, bank, target, info); }
    } else if s in w.nodes {
      PageEndAfter(va, PAGE_2MB);
      PageIndexMonotone(va, PageEnd(va, PAGE_2MB));
      if Ps64Applicable(cfg, q) { WidenedKeepsMarks(cfg, w, w, q.tree, va, PageEnd(va, PAGE_2MB)); }
    } else if !q.mode.Expect? {
      var w1 := AddTable(w, s, PteKind(q.pageSize));
      AddTableFacts(cfg, w, va, s, PteKind(q.pageSize));
      AddTableKeepsQueued(cfg, n0, w, s, PteKind(q.pageSize));
      var w2 := PlainVisit(cfg, w1, s, true);
      PlainVisitKeepsQueued(cfg, n0, w1, {s}, s, true);
      PlainVisitWidens(cfg, w1, s, true);
      assert {s} - {s} == {};
      GrownStaysReady(cfg, q, va, w.nodes, w2.nodes);
      SmallPageStreams(cfg, q, n0, w, w2, va, size, bank, target, info);
    }
  }

  lemma LargeLeaf(cfg: Config, q: Request, w: Walk, s: Slot, bank: nat, target: nat, info: PageInfo)
    requires s.level < 5
    ensures var v := LargePageStep(cfg, q, w, s, bank, target, info); v.leaf == Some(s) && v.pageSize == PAGE_2MB
  {
    hide PlainVisit, PlaceLeaf;
  }

  lemma PathKept(tree: nat, va: nat, w: Walk, r: Walk, high: nat)
    requires high <= 5 && PathOut(tree, va, w, 2, high) && w.emitted <= r.emitted
    requires forall x :: x in w.nodes && x.level >= 2 ==> x in r.nodes && r.nodes[x] == w.nodes[x]
    ensures PathOut(tree, va, r, 2, high)
  {
    hide Span;
  }

  /** The PTE is in place and streamed in w1; now its leaf. */
  lemma SmallPageStreams(cfg: Config, q: Request, n0: Forest, w: Walk, w1: Walk, va: nat, size: nat, bank: nat, target: nat, info: PageInfo)
    requires Ready(cfg, q, w.nodes, va) && Ready(cfg, q, w1.nodes, va) && w.tree == q.tree && w1.tree == q.tree && Queued(cfg, n0, w, {}) && Queued(cfg, n0, w1, {})
    requires Widened(w, w1) && PathOut(q.tree, va, w, 2, cfg.levels)
    requires var s := TableSlot(q.tree, 1, va);
      s in w1.nodes && IsTable(w1.nodes[s].kind) && (w1.nodes[s].pending ==> s in w1.emitted)
    requires Ps64Applicable(cfg, q) ==> MarksOk(cfg, w, q.tree, va)
    ensures StreamedVisit(cfg, q, n0, w, va, PteStep(cfg, q, w1, va, size, bank, target, info))
  {
    hide PteStep, WellFormed, Queued, LastQueued, MarksOk, PageEnd, Span;
    EmittedNodes(cfg, n0, w, {});
    if Ps64Applicable(cfg, q) { WidenedKeepsMarks(cfg, w, w1, q.tree, va, va); }
    PteStepKeepsQueued(cfg, q, n0, w1, va, size, bank, target, info);
    PteStepFacts(cfg, q, w1, va, size, bank, target, info);
  }

  lemma PageVisitKeepsQueued(cfg: Config, q: Request, n0: Forest, w: Walk, va: nat, size: nat, target: nat, info: PageInfo)
    requires Ready(cfg, q, w.nodes, va) && w.tree == q.tree && Queued(cfg, n0, w, {})
    requires Ps64Applicable(cfg, q) ==> MarksOk(cfg, w, q.tree, va)
    ensures StreamedVisit(cfg, q, n0, w, va, PageVisit(cfg, q, w, va, size, target, info))
  {
    hide PdeStep, TablesDown, Grown, WellFormed, Span, Queued, LastQueued, MarksOk, PageEnd;
    RootIsTableSlot(cfg, q.tree, va);
    TablesDownFacts(cfg, q, w, va, cfg.levels - 1);
    TablesDownKeepsQueued(cfg, q, n0, w, va, cfg.levels - 1);
    var (w1, found) := TablesDown(cfg, q, w, va, cfg.levels - 1);
    if found {
      EmittedNodes(cfg, n0, w, {});
      GrownStaysReady(cfg, q, va, w.nodes, w1.nodes);
      if Ps64Applicable(cfg, q) { WidenedKeepsMarks(cfg, w, w1, q.tree, va, va); }
      PdeStepKeepsQueued(cfg, q, n0, w1, va, size, BankAt(q, va), target, info);
      var v := PdeStep(cfg, q, w1, va, size, BankAt(q, va), target, info);
      OldLargePage(cfg, q, w, w1, va);
    }
  }

  /** New tables sit at level 2 and above, so an entry found at level 1 was there before. */
  lemma OldLargePage(cfg: Config, q: Request, w: Walk, w1: Walk, va: nat)
    requires forall s :: s in w1.nodes && s !in w.nodes ==> s.level >= 2
    ensures forall s :: s in w1.nodes && s.level == 1 ==> s in w.nodes
  {
  }

  // ---- the whole walk ----

  /** Not waiting: the entry is going out in this walk, or was never pending. */
  predicate Handled(w: Walk, s: Slot) {
    s in w.nodes && (s in w.emitted || !w.nodes[s].pending)
  }

  lemma HandledStays(cfg: Config, n0: Forest, w: Walk, r: Walk, s: Slot)
    requires Queued(cfg, n0, w, {}) && Queued(cfg, n0, r, {}) && w.emitted <= r.emitted
    requires Handled(w, s) && s in r.nodes
    ensures Handled(r, s)
  {
    hide EntryOf, LastQueued, EmittedOk, ListsOk, AddressesOk;
  }

  /** Every table above an address and its leaf are handled; the one exception is a 2MB page that was
      already waiting when a walk that maps nothing came by. */
  ghost predicate PathHandled(cfg: Config, q: Request, n0: Forest, w: Walk, x: nat)
    requires cfg.levels <= 5
  {
    && LeafOf(cfg, w.nodes, q.tree, x).Some?
    && var s := LeafOf(cfg, w.nodes, q.tree, x).value;
       && (forall l :: (if s.level == 1 then 2 else 1) <= l < cfg.levels ==> Handled(w, TableSlot(q.tree, l, x)))
       && (Handled(w, s) || (s.level == 1 && !q.mapping && s in n0 && n0[s].pending))
  }

  lemma VisitHandlesPath(cfg: Config, q: Request, n0: Forest, w: Walk, va: nat, v: Visit)
    requires cfg.levels <= 5 && Visited(cfg, q, w, va, v) && StreamedVisit(cfg, q, n0, w, va, v) && v.leaf.Some? && v.pageSize > 0
    ensures PathHandled(cfg, q, n0, v.w, va)
  {
    hide Queued, MarksOk, Grown, LeafSize, LeafFits, Span, PageEnd;
    if !Handled(v.w, v.leaf.value) { PendingLeafWasPending(cfg, n0, v.w, v.leaf.value); }
    forall l | (if v.leaf.value.level == 1 then 2 else 1) <= l < cfg.levels ensures Handled(v.w, TableSlot(q.tree, l, va)) {
    }
  }

  lemma PendingLeafWasPending(cfg: Config, n0: Forest, w: Walk, s: Slot)
    requires Queued(cfg, n0, w, {}) && s in w.nodes && w.nodes[s].pending && s !in w.emitted
    ensures s in n0 && n0[s].pending
  {
    hide EntryOf, LastQueued;
  }
}
