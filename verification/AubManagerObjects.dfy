/** The manager object: its calls loop over the tiles and keep their tables in step. */
module AubManagerObjects {
  import opened Arithmetic
  import opened PhysicalMemory
  import opened PageTables
  import opened WalkModel
  import opened TreeFacts
  import opened WalkLookup
  import opened FrameOwnership
  import opened Streams
  import opened FreeModel
  import opened System
  import opened Lockstep
  import opened LockstepFree
  import opened Tiles
  import opened Walker
  import opened AubStreamObjects

  class AubManager {
    const heap: TableHeap
    const stream: AubStream
    /** One address space per tile. */
    const ppgtts: seq<nat>

    constructor (heap: TableHeap, stream: AubStream, ppgtts: seq<nat>)
      ensures this.heap == heap && this.stream == stream && this.ppgtts == ppgtts
    {
      this.heap := heap;
      this.stream := stream;
      this.ppgtts := ppgtts;
    }

    ghost function Sys(): System
      reads heap, stream
    {
      System(heap.nodes, heap.mem, stream.Contents())
    }

    /** Walk one tile's tables and stream what the walk collected. */
    method WalkAndWrite(cfg: Config, g: Layout, q: Request, target: nat) returns (pages: seq<PageInfo>)
      requires Sound0(cfg, g, Sys()) && Allowed(cfg, Sys(), WalkTree(q, target)) && !q.mode.Expect? && (q.mapping ==> q.mode.Reserve?)
      modifies heap, stream
      ensures Sys() == Step(cfg, old(Sys()), WalkTree(q, target))
      ensures pages == WalkMemory(cfg, q, old(heap.nodes), old(heap.mem), target).0.entries
    {
      hide WellFormed, Owned, ValidPhysical, AlignedPool, WalkFrom, BanksExist, FitsIn, Commit;
      var walker := new PageTableWalker(heap, q.tree);
      var _ := walker.WalkMemory(cfg, q, target);
      pages := walker.entries;
      ghost var w := walker.Now();
      stream.WritePageWalkEntries(cfg, walker);
    }

    /** Tile 0 reserves, every other tile clones the pages tile 0 reported. */
    method WriteMemory2(cfg: Config, g: Layout, q: Request)
      requires TilesOk(cfg, g, Sys(), ppgtts) && CallFits(Write(q)) && TileLegal(cfg, Sys(), LeadOp(Write(q), ppgtts[0]))
      modifies heap, stream
      ensures Sys() == RunOps(cfg, old(Sys()), Ops(cfg, old(Sys()), ppgtts, Write(q)))
      ensures TilesOk(cfg, g, Sys(), ppgtts)
    {
      hide Sound0, TileLegal, Allowed, TableSafe, TilesOk, Step, Halfway, WalkModel.WalkMemory, RunOps, FollowOps;
      ghost var sys0, call := Sys(), Write(q);
      TilesAreSound(cfg, g, sys0, ppgtts);
      TileAllows(cfg, sys0, LeadOp(call, ppgtts[0]));
      LeaderStarts(cfg, g, sys0, ppgtts, call);
      CallKeepsTiles(cfg, g, sys0, ppgtts, call);
      var pages := WalkAndWrite(cfg, g, q.(tree := ppgtts[0]), 0);
      LedBy(cfg, g, sys0, call, ppgtts[0], pages);
      CallUnfolds(cfg, sys0, ppgtts, call, pages);
      assert ppgtts[..1] == [ppgtts[0]];
      for i := 1 to |ppgtts|
        invariant Halfway(cfg, g, sys0, call, ppgtts[0], Sys(), ppgtts[..i], ppgtts[i..])
        invariant RunOps(cfg, Sys(), FollowOps(call, pages, ppgtts[i..])) == RunOps(cfg, sys0, Ops(cfg, sys0, ppgtts, call))
      {
        NextFollower(cfg, g, sys0, call, ppgtts, i, pages, Sys());
        var _ := WalkAndWrite(cfg, g, q.(tree := ppgtts[i], mode := Clone, infos := pages), 0);
      }
      NoFollowers(cfg, call, pages, ppgtts[|ppgtts|..], Sys());
    }

    /** Every tile maps the same physical memory. */
    method MapGpuVa2(cfg: Config, g: Layout, q: Request, physicalAddress: nat)
      requires TilesOk(cfg, g, Sys(), ppgtts) && CallFits(Map(q, physicalAddress))
      requires TileLegal(cfg, Sys(), LeadOp(Map(q, physicalAddress), ppgtts[0]))
      modifies heap, stream
      ensures Sys() == RunOps(cfg, old(Sys()), Ops(cfg, old(Sys()), ppgtts, Map(q, physicalAddress)))
      ensures TilesOk(cfg, g, Sys(), ppgtts)
    {
      hide Sound0, TileLegal, Allowed, TableSafe, TilesOk, Step, Halfway, WalkModel.WalkMemory, RunOps, FollowOps;
      ghost var sys0, call := Sys(), Map(q, physicalAddress);
      TilesAreSound(cfg, g, sys0, ppgtts);
      TileAllows(cfg, sys0, LeadOp(call, ppgtts[0]));
      LeaderStarts(cfg, g, sys0, ppgtts, call);
      CallKeepsTiles(cfg, g, sys0, ppgtts, call);
      LedBy(cfg, g, sys0, call, ppgtts[0], []);
      CallUnfolds(cfg, sys0, ppgtts, call, []);
      var _ := WalkAndWrite(cfg, g, q.(tree := ppgtts[0]), physicalAddress);
      assert ppgtts[..1] == [ppgtts[0]];
      for i := 1 to |ppgtts|
        invariant Halfway(cfg, g, sys0, call, ppgtts[0], Sys(), ppgtts[..i], ppgtts[i..])
        invariant RunOps(cfg, Sys(), FollowOps(call, [], ppgtts[i..])) == RunOps(cfg, sys0, Ops(cfg, sys0, ppgtts, call))
      {
        NextFollower(cfg, g, sys0, call, ppgtts, i, [], Sys());
        var _ := WalkAndWrite(cfg, g, q.(tree := ppgtts[i]), physicalAddress);
      }
      NoFollowers(cfg, call, [], ppgtts[|ppgtts|..], Sys());
    }

    method FreeOne(cfg: Config, g: Layout, tree: nat, gfxAddress: nat, size: nat)
      requires Sound0(cfg, g, Sys()) && Root(cfg, tree) in heap.nodes && FitsIn(cfg, gfxAddress, size)
      modifies heap, stream
      ensures Sys() == Step(cfg, old(Sys()), FreeRange(tree, gfxAddress, size))
    {
      hide WellFormed, Owned, ValidPhysical, AlignedPool, FreeModel.FreeMemory, FreeCommit, FitsIn;
      var _ := stream.FreeMemory(cfg, heap, tree, gfxAddress, size);
    }

    method FreeMemory(cfg: Config, g: Layout, gfxAddress: nat, size: nat)
      requires TilesOk(cfg, g, Sys(), ppgtts) && TileLegal(cfg, Sys(), LeadOp(Free(gfxAddress, size), ppgtts[0]))
      requires FitsIn(cfg, gfxAddress, size)
      modifies heap, stream
      ensures Sys() == RunOps(cfg, old(Sys()), Ops(cfg, old(Sys()), ppgtts, Free(gfxAddress, size)))
      ensures TilesOk(cfg, g, Sys(), ppgtts)
    {
      hide Sound0, TileLegal, Allowed, TableSafe, TilesOk, Step, Halfway, WalkModel.WalkMemory, RunOps, FollowOps, FitsIn;
      ghost var sys0, call := Sys(), Free(gfxAddress, size);
      TilesAreSound(cfg, g, sys0, ppgtts);
      TileAllows(cfg, sys0, LeadOp(call, ppgtts[0]));
      LeaderStarts(cfg, g, sys0, ppgtts, call);
      CallKeepsTiles(cfg, g, sys0, ppgtts, call);
      LedBy(cfg, g, sys0, call, ppgtts[0], []);
      CallUnfolds(cfg, sys0, ppgtts, call, []);
      FreeOne(cfg, g, ppgtts[0], gfxAddress, size);
      assert ppgtts[..1] == [ppgtts[0]];
      for i := 1 to |ppgtts|
        invariant Halfway(cfg, g, sys0, call, ppgtts[0], Sys(), ppgtts[..i], ppgtts[i..])
        invariant RunOps(cfg, Sys(), FollowOps(call, [], ppgtts[i..])) == RunOps(cfg, sys0, Ops(cfg, sys0, ppgtts, call))
      {
        NextFollower(cfg, g, sys0, call, ppgtts, i, [], Sys());
        FreeOne(cfg, g, ppgtts[i], gfxAddress, size);
      }
      NoFollowers(cfg, call, [], ppgtts[|ppgtts|..], Sys());
    }
  }

  lemma TilesAreSound(cfg: Config, g: Layout, sys: System, tiles: seq<nat>)
    requires TilesOk(cfg, g, sys, tiles)
    ensures Sound0(cfg, g, sys) && |tiles| > 0 && ValidConfig(cfg) && Root(cfg, tiles[0]) in sys.nodes
  {
    hide WellFormed, Owned, ValidPhysical, AlignedPool, Twin, OwnsNoLeaf;
    assert tiles[0] in tiles;
  }

  lemma LedBy(cfg: Config, g: Layout, sys: System, call: Call, t: nat, pages: seq<PageInfo>)
    requires Sound0(cfg, g, sys) && ValidConfig(cfg) && CallFits(call) && !call.Other? && TileLegal(cfg, sys, LeadOp(call, t))
    requires pages == LeadPages(cfg, sys, call, t)
    ensures Led(cfg, g, sys, call, t, pages)
  {
    hide Sound0, TileLegal, LeadPages;
  }

  /** A call is tile 0's operation and then the others'. */
  lemma CallUnfolds(cfg: Config, sys: System, tiles: seq<nat>, call: Call, pages: seq<PageInfo>)
    requires ValidConfig(cfg) && CallFits(call) && |tiles| > 0 && pages == LeadPages(cfg, sys, call, tiles[0])
    ensures RunOps(cfg, sys, Ops(cfg, sys, tiles, call))
      == RunOps(cfg, Step(cfg, sys, LeadOp(call, tiles[0])), FollowOps(call, pages, tiles[1..]))
  {
    hide Step, LeadPages, FollowOps;
    var ops := Ops(cfg, sys, tiles, call);
    assert ops[1..] == FollowOps(call, pages, tiles[1..]) && ops[0] == LeadOp(call, tiles[0]);
  }

  lemma NextFollower(cfg: Config, g: Layout, sys0: System, call: Call, tiles: seq<nat>, i: nat, pages: seq<PageInfo>, sys: System)
    requires 1 <= i < |tiles| && Led(cfg, g, sys0, call, tiles[0], pages) && ValidConfig(cfg) && CallFits(call)
    requires Halfway(cfg, g, sys0, call, tiles[0], sys, tiles[..i], tiles[i..])
    ensures var op := FollowOp(call, pages, tiles[i]);
      && Sound0(cfg, g, sys) && Allowed(cfg, sys, op) && Root(cfg, tiles[i]) in sys.nodes
      && Halfway(cfg, g, sys0, call, tiles[0], Step(cfg, sys, op), tiles[..i + 1], tiles[i + 1..])
      && RunOps(cfg, Step(cfg, sys, op), FollowOps(call, pages, tiles[i + 1..])) == RunOps(cfg, sys, FollowOps(call, pages, tiles[i..]))
  {
    hide Sound0, TileLegal, Allowed, TableSafe, Step, Twin, OwnsNoLeaf, WalkModel.WalkMemory, Led;
    LedLevels(cfg, g, sys0, call, tiles[0], pages);
    var rest := tiles[i..];
    assert rest[0] == tiles[i] && rest[1..] == tiles[i + 1..] && tiles[..i] + [rest[0]] == tiles[..i + 1];
    assert tiles[i] in tiles[..i] + rest;
    OneFollower(cfg, g, sys0, call, tiles[0], pages, sys, tiles[..i], rest);
    TileAllows(cfg, sys, FollowOp(call, pages, rest[0]));
    var ops := FollowOps(call, pages, rest);
    assert ops[0] == FollowOp(call, pages, tiles[i]) && ops[1..] == FollowOps(call, pages, tiles[i + 1..]);
  }

  lemma NoFollowers(cfg: Config, call: Call, pages: seq<PageInfo>, rest: seq<nat>, sys: System)
    requires cfg.levels <= 5 && CallFits(call) && rest == []
    ensures RunOps(cfg, sys, FollowOps(call, pages, rest)) == sys
  {
  }
}
