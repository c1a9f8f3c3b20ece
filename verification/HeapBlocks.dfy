/**
 The blocks of a first-fit heap as values: how allocation splits them, how freeing merges
 them, and what follows for the gaps between live blocks.
 */
module HeapBlocks {

  /** Bytes in the arena, and in the header in front of every payload. */
  const HEAP: nat := 10485760
  const HEADER: nat := 24

  datatype Block = Block(addr: nat, size: nat, free: bool) {
    /** The first address after the block. */
    function End(): nat { addr + HEADER + size }

    /** Where the payload begins; the pointer that the allocator hands out. */
    function Payload(): nat { addr + HEADER }
  }

  const INITIAL := [Block(0, HEAP - HEADER, true)]

  /** The blocks lie end to end from `lo` to `hi`. */
  ghost predicate TilesFrom(bs: seq<Block>, lo: nat, hi: nat) {
    && bs != [] && bs[0].addr == lo && bs[|bs| - 1].End() == hi
    && forall i, j {:trigger bs[i], bs[j]} :: 0 <= i < |bs| && j == i + 1 < |bs| ==> bs[j].addr == bs[i].End()
  }

  /** The blocks fill the arena. */
  ghost predicate Tiles(bs: seq<Block>) {
    TilesFrom(bs, 0, HEAP)
  }

  ghost predicate NoAdjacentFree(bs: seq<Block>) {
    forall i, j {:trigger bs[i], bs[j]} :: 0 <= i < |bs| && j == i + 1 < |bs| ==> !(bs[i].free && bs[j].free)
  }

  ghost predicate Inv(bs: seq<Block>) {
    Tiles(bs) && NoAdjacentFree(bs)
  }

  /** The index of the first free block with room for `size` bytes, or the number of blocks. */
  function FirstFit(bs: seq<Block>, size: nat): (k: nat)
    ensures k <= |bs|
    ensures k < |bs| ==> bs[k].free && bs[k].size >= size
    ensures forall i :: 0 <= i < k ==> !(bs[i].free && bs[i].size >= size)
  {
    if bs == [] || (bs[0].free && bs[0].size >= size) then 0
    else 1 + FirstFit(bs[1..], size)
  }

  /** The blocks that take the place of `b` when `size` bytes of it are handed out. */
  function Carve(b: Block, size: nat): seq<Block>
    requires b.size >= size
  {
    if b.size > size + HEADER then
      [Block(b.addr, size, false), Block(b.addr + HEADER + size, b.size - size - HEADER, true)]
    else [b.(free := false)]
  }

  function Allocate(bs: seq<Block>, size: nat): seq<Block> {
    var k := FirstFit(bs, size);
    if k == |bs| then bs else bs[..k] + Carve(bs[k], size) + bs[k + 1..]
  }

  /** Merges every free block with the free blocks after it, front to back. */
  function Coalesce(bs: seq<Block>): seq<Block>
    decreases |bs|
  {
    if |bs| < 2 then bs
    else if bs[0].free && bs[1].free then
      Coalesce([Block(bs[0].addr, bs[0].size + bs[1].size + HEADER, true)] + bs[2..])
    else [bs[0]] + Coalesce(bs[1..])
  }

  /** The index of the live block whose payload begins at `p`, or the number of blocks. */
  function Find(bs: seq<Block>, p: nat): (k: nat)
    ensures k <= |bs|
    ensures k < |bs| ==> !bs[k].free && bs[k].Payload() == p
    ensures k == |bs| ==> forall b :: b in bs ==> b.free || b.Payload() != p
  {
    if bs == [] || (!bs[0].free && bs[0].Payload() == p) then 0
    else 1 + Find(bs[1..], p)
  }

  function Release(bs: seq<Block>, p: nat): seq<Block> {
    var k := Find(bs, p);
    if k == |bs| then bs else Coalesce(bs[k := bs[k].(free := true)])
  }

  /** The live blocks, in address order. */
  function Live(bs: seq<Block>): seq<Block> {
    if bs == [] then []
    else if bs[0].free then Live(bs[1..])
    else [bs[0]] + Live(bs[1..])
  }

  // ------------------------------------------------------------ order

  /** Blocks further on lie behind. */
  lemma {:induction false} TilesOrdered(bs: seq<Block>, i: nat, j: nat)
    requires Tiles(bs) && i < j < |bs|
    ensures bs[i].End() <= bs[j].addr
    decreases j - i
  {
    if i + 1 < j {
      TilesOrdered(bs, i, j - 1);
      assert bs[j].addr == bs[j - 1].End();
    } else {
      assert bs[j].addr == bs[i].End();
    }
  }

  lemma TilesWithin(bs: seq<Block>, i: nat)
    requires Tiles(bs) && i < |bs|
    ensures bs[i].End() <= HEAP
  {
    if i < |bs| - 1 {
      TilesOrdered(bs, i, |bs| - 1);
    }
  }

  /** Every address lies in exactly one block. */
  lemma {:induction false} TilesCover(bs: seq<Block>, a: nat, from: nat) returns (i: nat)
    requires Tiles(bs) && from < |bs| && bs[from].addr <= a < HEAP
    ensures from <= i < |bs| && bs[i].addr <= a < bs[i].End()
    decreases |bs| - from
  {
    if a < bs[from].End() {
      i := from;
    } else {
      assert from + 1 < |bs| ==> bs[from + 1].addr == bs[from].End();
      i := TilesCover(bs, a, from + 1);
    }
  }

  // ------------------------------------------------------------ allocation

  lemma CarveTiles(b: Block, size: nat)
    requires b.size >= size
    ensures var c := Carve(b, size);
      && (|c| == 1 || |c| == 2) && c[0].addr == b.addr && c[|c| - 1].End() == b.End()
      && (|c| == 2 ==> c[1].addr == c[0].End() && c[1].free) && !c[0].free
  {
  }

  lemma AllocateKeepsInv(bs: seq<Block>, size: nat)
    requires Inv(bs)
    ensures Inv(Allocate(bs, size))
  {
    var k := FirstFit(bs, size);
    if k < |bs| {
      CarveTiles(bs[k], size);
      var c, made := Carve(bs[k], size), Allocate(bs, size);
      forall i, j | 0 <= i < |made| && j == i + 1 < |made|
        ensures made[j].addr == made[i].End() && !(made[i].free && made[j].free)
      {
        if j < k {
          assert made[i] == bs[i] && made[j] == bs[j];
        } else if j == k {
          assert made[i] == bs[i] && made[j] == c[0];
          assert bs[k].addr == bs[i].End();
        } else if i >= k + |c| {
          assert made[i] == bs[i - |c| + 1] && made[j] == bs[j - |c| + 1];
        } else if i == k + |c| - 1 {
          assert made[i] == c[|c| - 1] && made[j] == bs[k + 1];
          assert bs[k + 1].addr == bs[k].End() && !bs[k + 1].free;
        } else {
          assert made[i] == c[0] && made[j] == c[1];
        }
      }
      assert made[0] == if k == 0 then c[0] else bs[0];
      assert made[|made| - 1] == if k == |bs| - 1 then c[|c| - 1] else bs[|bs| - 1];
    }
  }

  lemma {:induction false} LiveConcat(xs: seq<Block>, ys: seq<Block>)
    ensures Live(xs + ys) == Live(xs) + Live(ys)
    decreases |xs|
  {
    if xs == [] {
      assert xs + ys == ys;
    } else {
      assert (xs + ys)[0] == xs[0] && (xs + ys)[1..] == xs[1..] + ys;
      LiveConcat(xs[1..], ys);
    }
  }

  lemma {:induction false} LiveMembers(bs: seq<Block>, b: Block)
    ensures b in Live(bs) <==> b in bs && !b.free
    decreases |bs|
  {
    if bs != [] {
      LiveMembers(bs[1..], b);
    }
  }

  lemma SplitAround(bs: seq<Block>, k: nat)
    requires k < |bs|
    ensures bs == bs[..k] + bs[k..] && bs[k..][0] == bs[k] && bs[k..][1..] == bs[k + 1..]
  {
  }

  lemma ConcatAssoc(a: seq<Block>, b: seq<Block>, c: seq<Block>)
    ensures a + (b + c) == a + b + c
  {
  }

  lemma LiveFirst(bs: seq<Block>)
    requires bs != []
    ensures Live(bs) == (if bs[0].free then [] else [bs[0]]) + Live(bs[1..])
  {
  }

  /** The live blocks seen from one index: those before, the block itself if live, those after. */
  lemma LiveAround(bs: seq<Block>, k: nat)
    requires k < |bs|
    ensures Live(bs) == Live(bs[..k]) + (if bs[k].free then [] else [bs[k]]) + Live(bs[k + 1..])
  {
    hide Live;
    SplitAround(bs, k);
    LiveConcat(bs[..k], bs[k..]);
    LiveFirst(bs[k..]);
    ConcatAssoc(Live(bs[..k]), if bs[k].free then [] else [bs[k]], Live(bs[k + 1..]));
  }

  lemma LiveOfCarve(b: Block, size: nat)
    requires b.size >= size
    ensures Live(Carve(b, size)) == [Carve(b, size)[0]]
  {
    var c := Carve(b, size);
    if |c| == 2 {
      assert c[1..] == [c[1]] && Live([c[1]]) == Live([c[1]][1..]);
    }
  }

  lemma NoEmptyRest(bs: seq<Block>, size: nat, b: Block)
    requires b in Allocate(bs, size) && b.free
    ensures b in bs || b.size > 0
  {
  }

  /** Allocation adds one live block and leaves the others alone.  It grants at least what was asked
      for, and at most a header more than that; and what it splits off has room for at least a byte. */
  lemma AllocateAddsOneLive(bs: seq<Block>, size: nat) returns (b: Block)
    requires FirstFit(bs, size) < |bs|
    ensures b.addr == bs[FirstFit(bs, size)].addr && !b.free && size <= b.size <= size + HEADER
    ensures var k := FirstFit(bs, size);
      && Live(Allocate(bs, size)) == Live(bs[..k]) + [b] + Live(bs[k + 1..])
      && Live(bs) == Live(bs[..k]) + Live(bs[k + 1..])
    ensures forall x :: x in Allocate(bs, size) && x.free ==> x in bs || x.size > 0
  {
    hide Live, FirstFit;
    var k := FirstFit(bs, size);
    forall x | x in Allocate(bs, size) && x.free
      ensures x in bs || x.size > 0
    {
      NoEmptyRest(bs, size, x);
    }
    var c := Carve(bs[k], size);
    b := c[0];
    LiveAround(bs, k);
    LiveConcat(bs[..k] + c, bs[k + 1..]);
    LiveConcat(bs[..k], c);
    LiveOfCarve(bs[k], size);
  }

  /** The bytes from `lo` up to `hi` belong to no live block. */
  ghost predicate Unclaimed(bs: seq<Block>, lo: nat, hi: nat) {
    lo <= hi <= HEAP && forall b :: b in bs && !b.free ==> b.End() <= lo || hi <= b.addr
  }

  /** A stretch of unclaimed bytes lies within a single free block. */
  lemma GapInsideFreeBlock(bs: seq<Block>, lo: nat, hi: nat) returns (i: nat)
    requires Inv(bs) && lo < hi && Unclaimed(bs, lo, hi)
    ensures i < |bs| && bs[i].free && bs[i].addr <= lo && hi <= bs[i].End()
  {
    i := TilesCover(bs, lo, 0);
    assert bs[i] in bs;
    assert i + 1 < |bs| ==> bs[i + 1] in bs && bs[i + 1].addr == bs[i].End();
  }

  lemma FreeBlockIsUnclaimed(bs: seq<Block>, k: nat)
    requires Tiles(bs) && k < |bs| && bs[k].free
    ensures Unclaimed(bs, bs[k].addr, bs[k].End())
  {
    TilesWithin(bs, k);
    forall b | b in bs && !b.free
      ensures b.End() <= bs[k].addr || bs[k].End() <= b.addr
    {
      var j :| 0 <= j < |bs| && bs[j] == b;
      if j < k {
        TilesOrdered(bs, j, k);
      } else {
        TilesOrdered(bs, k, j);
      }
    }
  }

  /** At `lo` there is an unclaimed stretch long enough for `size` bytes and a header. */
  ghost predicate GapAt(bs: seq<Block>, lo: nat, size: nat) {
    Unclaimed(bs, lo, lo + size + HEADER)
  }

  /** Allocation is complete: it fails exactly when nowhere in the arena is there an unclaimed stretch
      long enough for the payload and its header. */
  lemma AllocationFailsIffNoGap(bs: seq<Block>, size: nat)
    requires Inv(bs)
    ensures FirstFit(bs, size) == |bs| <==> forall lo: nat :: !GapAt(bs, lo, size)
  {
    var k := FirstFit(bs, size);
    forall lo: nat
      ensures k == |bs| ==> !GapAt(bs, lo, size)
    {
      if GapAt(bs, lo, size) {
        var i := GapInsideFreeBlock(bs, lo, lo + size + HEADER);
      }
    }
    if k < |bs| {
      FreeBlockIsUnclaimed(bs, k);
      assert GapAt(bs, bs[k].addr, size);
    }
  }

  /** And it takes the lowest: no unclaimed stretch of that length begins before the block it hands out. */
  lemma AllocationIsLowest(bs: seq<Block>, size: nat, lo: nat)
    requires Inv(bs) && GapAt(bs, lo, size)
    ensures FirstFit(bs, size) < |bs| && bs[FirstFit(bs, size)].addr <= lo
    ensures GapAt(bs, bs[FirstFit(bs, size)].addr, size)
  {
    var i := GapInsideFreeBlock(bs, lo, lo + size + HEADER);
    var k := FirstFit(bs, size);
    if k < i {
      TilesOrdered(bs, k, i);
    }
    FreeBlockIsUnclaimed(bs, k);
  }

  // ------------------------------------------------------------ freeing

  /** The first two blocks become one. */
  function MergeFirst(bs: seq<Block>): seq<Block>
    requires |bs| >= 2
  {
    [Block(bs[0].addr, bs[0].size + bs[1].size + HEADER, true)] + bs[2..]
  }

  lemma MergeFirstTiles(bs: seq<Block>, lo: nat, hi: nat)
    requires TilesFrom(bs, lo, hi) && |bs| >= 2
    ensures TilesFrom(MergeFirst(bs), lo, hi)
  {
    var merged := MergeFirst(bs);
    assert bs[1].addr == bs[0].End();
    forall i, j | 0 <= i < |merged| && j == i + 1 < |merged|
      ensures merged[j].addr == merged[i].End()
    {
      assert merged[j] == bs[j + 1] && bs[j + 1].addr == bs[i + 1].End();
    }
  }

  /** Merging keeps the tiling. */
  lemma {:induction false} CoalesceTiles(bs: seq<Block>, lo: nat, hi: nat)
    requires TilesFrom(bs, lo, hi)
    ensures TilesFrom(Coalesce(bs), lo, hi)
    decreases |bs|
  {
    if |bs| < 2 {
    } else if bs[0].free && bs[1].free {
      MergeFirstTiles(bs, lo, hi);
      CoalesceTiles(MergeFirst(bs), lo, hi);
    } else {
      assert bs[1].addr == bs[0].End();
      CoalesceTiles(bs[1..], bs[0].End(), hi);
      var rest := Coalesce(bs[1..]);
      var cs := [bs[0]] + rest;
      forall i, j | 0 <= i < |cs| && j == i + 1 < |cs|
        ensures cs[j].addr == cs[i].End()
      {
        assert cs[j] == rest[j - 1] && (i > 0 ==> cs[i] == rest[i - 1]);
      }
    }
  }

  /** Merging leaves no two free neighbours. */
  lemma {:induction false} CoalesceSeparates(bs: seq<Block>)
    ensures NoAdjacentFree(Coalesce(bs))
    ensures bs != [] ==> Coalesce(bs) != [] && Coalesce(bs)[0].free == bs[0].free
    decreases |bs|
  {
    if |bs| < 2 {
    } else if bs[0].free && bs[1].free {
      CoalesceSeparates(MergeFirst(bs));
    } else {
      CoalesceSeparates(bs[1..]);
      var rest := Coalesce(bs[1..]);
      var cs := [bs[0]] + rest;
      forall i, j | 0 <= i < |cs| && j == i + 1 < |cs|
        ensures !(cs[i].free && cs[j].free)
      {
        assert cs[j] == rest[j - 1] && (i > 0 ==> cs[i] == rest[i - 1]);
      }
    }
  }

  /** Merging leaves the live blocks alone. */
  lemma {:induction false} CoalesceKeepsLive(bs: seq<Block>)
    ensures Live(Coalesce(bs)) == Live(bs)
    decreases |bs|
  {
    if |bs| < 2 {
    } else if bs[0].free && bs[1].free {
      CoalesceKeepsLive(MergeFirst(bs));
      assert MergeFirst(bs)[1..] == bs[2..] == bs[1..][1..];
    } else {
      CoalesceKeepsLive(bs[1..]);
      assert ([bs[0]] + Coalesce(bs[1..]))[1..] == Coalesce(bs[1..]);
    }
  }

  lemma MarkTiles(bs: seq<Block>, k: nat)
    requires Tiles(bs) && k < |bs|
    ensures TilesFrom(bs[k := bs[k].(free := true)], 0, HEAP)
  {
    var marked := bs[k := bs[k].(free := true)];
    forall i, j | 0 <= i < |marked| && j == i + 1 < |marked|
      ensures marked[j].addr == marked[i].End()
    {
      assert bs[j].addr == bs[i].End();
    }
  }

  /** Freeing keeps the invariant and takes exactly one block from the live ones. */
  lemma ReleaseKeepsInv(bs: seq<Block>, p: nat)
    requires Inv(bs) && Find(bs, p) < |bs|
    ensures Inv(Release(bs, p))
    ensures var k := Find(bs, p);
      && Live(bs) == Live(bs[..k]) + [bs[k]] + Live(bs[k + 1..])
      && Live(Release(bs, p)) == Live(bs[..k]) + Live(bs[k + 1..])
  {
    hide Live, Coalesce;
    var k := Find(bs, p);
    var marked := bs[k := bs[k].(free := true)];
    MarkTiles(bs, k);
    CoalesceTiles(marked, 0, HEAP);
    CoalesceSeparates(marked);
    CoalesceKeepsLive(marked);
    LiveAround(bs, k);
    LiveAround(marked, k);
    assert marked[..k] == bs[..k] && marked[k + 1..] == bs[k + 1..];
  }

  // ------------------------------------------------------------ whole runs

  datatype Call = Malloc(size: nat) | Free(p: nat)

  /** What a caller of the heap sees: the pointers it was given and has not freed. */
  datatype Run = Run(blocks: seq<Block>, pointers: set<nat>)

  /** The state after a history of calls, latest first. */
  function After(calls: seq<Call>): Run {
    if calls == [] then Run(INITIAL, {})
    else
      var r := After(calls[1..]);
      match calls[0]
      case Malloc(size) =>
        var k := FirstFit(r.blocks, size);
        if k == |r.blocks| then r
        else Run(Allocate(r.blocks, size), r.pointers + {r.blocks[k].Payload()})
      case Free(p) => Run(Release(r.blocks, p), r.pointers - {p})
  }

  /** A well-behaved caller frees only pointers that it holds. */
  predicate WellBehaved(calls: seq<Call>) {
    calls == [] || (WellBehaved(calls[1..]) && (calls[0].Free? ==> calls[0].p in After(calls[1..]).pointers))
  }

  function Payloads(bs: seq<Block>): set<nat> {
    set b | b in bs :: b.Payload()
  }

  ghost predicate PointersAreLive(r: Run) {
    r.pointers == Payloads(Live(r.blocks))
  }

  /** Payload addresses tell blocks apart. */
  lemma PayloadsDiffer(bs: seq<Block>, i: nat, j: nat)
    requires Tiles(bs) && i < |bs| && j < |bs| && i != j
    ensures bs[i].Payload() != bs[j].Payload()
  {
    if i < j {
      TilesOrdered(bs, i, j);
    } else {
      TilesOrdered(bs, j, i);
    }
  }

  /** No two live blocks share a byte, headers included. */
  lemma LiveBlocksAreDisjoint(bs: seq<Block>, b: Block, c: Block)
    requires Inv(bs) && b in bs && c in bs && b != c
    ensures b.End() <= c.addr || c.End() <= b.addr
  {
    var i :| 0 <= i < |bs| && bs[i] == b;
    var j :| 0 <= j < |bs| && bs[j] == c;
    if i < j {
      TilesOrdered(bs, i, j);
    } else {
      TilesOrdered(bs, j, i);
    }
  }

  lemma MallocKeepsPointers(r: Run, size: nat)
    requires Inv(r.blocks) && PointersAreLive(r) && FirstFit(r.blocks, size) < |r.blocks|
    ensures var k := FirstFit(r.blocks, size);
      PointersAreLive(Run(Allocate(r.blocks, size), r.pointers + {r.blocks[k].Payload()}))
  {
    hide Live, FirstFit, Allocate;
    var k := FirstFit(r.blocks, size);
    var b := AllocateAddsOneLive(r.blocks, size);
    var before, after := Live(r.blocks[..k]), Live(r.blocks[k + 1..]);
    assert Payloads(before + [b] + after) == Payloads(before) + Payloads([b]) + Payloads(after);
    assert Payloads(before + after) == Payloads(before) + Payloads(after);
    assert Payloads([b]) == {b.Payload()};
  }

  lemma FindsLivePointer(bs: seq<Block>, p: nat)
    requires p in Payloads(Live(bs))
    ensures Find(bs, p) < |bs|
  {
    var b :| b in Live(bs) && b.Payload() == p;
    LiveMembers(bs, b);
  }

  lemma FreeKeepsPointers(r: Run, p: nat)
    requires Inv(r.blocks) && PointersAreLive(r) && p in r.pointers
    ensures Find(r.blocks, p) < |r.blocks|
    ensures PointersAreLive(Run(Release(r.blocks, p), r.pointers - {p}))
  {
    hide Live, Coalesce;
    var bs := r.blocks;
    FindsLivePointer(bs, p);
    ReleaseKeepsInv(bs, p);
    var k := Find(bs, p);
    var before, after := Live(bs[..k]), Live(bs[k + 1..]);
    assert Payloads(before + [bs[k]] + after) == Payloads(before) + Payloads([bs[k]]) + Payloads(after);
    assert Payloads(before + after) == Payloads(before) + Payloads(after);
    assert Payloads([bs[k]]) == {p};
    forall b | b in before || b in after
      ensures b.Payload() != p
    {
      LiveMembers(bs[..k], b);
      LiveMembers(bs[k + 1..], b);
      var j :| 0 <= j < |bs| && j != k && bs[j] == b;
      PayloadsDiffer(bs, j, k);
    }
  }

  /** Every history of a well-behaved caller keeps the arena tiled, without free neighbours, and the
      live blocks are exactly those whose pointers the caller holds. */
  lemma {:induction false} RunKeepsInv(calls: seq<Call>)
    requires WellBehaved(calls)
    ensures Inv(After(calls).blocks) && PointersAreLive(After(calls))
    decreases |calls|
  {
    if calls == [] {
      assert INITIAL[1..] == [];
      assert Live(INITIAL) == [];
    } else {
      RunKeepsInv(calls[1..]);
      var r := After(calls[1..]);
      match calls[0]
      case Malloc(size) =>
        if FirstFit(r.blocks, size) < |r.blocks| {
          AllocateKeepsInv(r.blocks, size);
          MallocKeepsPointers(r, size);
        }
      case Free(p) =>
        FreeKeepsPointers(r, p);
        ReleaseKeepsInv(r.blocks, p);
    }
  }

  /** Whole-run restoration: once every pointer handed out has been freed, in whatever order, the heap
      is again the single free block it started as. */
  lemma AllFreedRestoresHeap(calls: seq<Call>)
    requires WellBehaved(calls) && After(calls).pointers == {}
    ensures After(calls).blocks == INITIAL
  {
    RunKeepsInv(calls);
    NoPayloadsNoBlocks(Live(After(calls).blocks));
    NoLiveIsInitial(After(calls).blocks);
  }

  lemma NoPayloadsNoBlocks(bs: seq<Block>)
    ensures Payloads(bs) == {} <==> bs == []
  {
    assert bs != [] ==> bs[0].Payload() in Payloads(bs);
  }

  lemma AdjacentFree(bs: seq<Block>)
    requires |bs| > 1 && bs[0].free && bs[1].free
    ensures !NoAdjacentFree(bs)
  {
  }

  lemma LoneFreeBlock(bs: seq<Block>)
    requires NoAdjacentFree(bs) && forall i :: 0 <= i < |bs| ==> bs[i].free
    ensures |bs| <= 1
  {
    if |bs| > 1 {
      AdjacentFree(bs);
    }
  }

  lemma NoLiveIsInitial(bs: seq<Block>)
    requires Inv(bs) && Live(bs) == []
    ensures bs == INITIAL
  {
    forall i | 0 <= i < |bs|
      ensures bs[i].free
    {
      LiveMembers(bs, bs[i]);
    }
    LoneFreeBlock(bs);
  }

  /** Nothing is lost on the way either: payloads and headers always add up to the arena. */
  lemma {:induction false} BytesAddUp(bs: seq<Block>, lo: nat, hi: nat)
    requires TilesFrom(bs, lo, hi)
    ensures Total(bs) == hi - lo
    decreases |bs|
  {
    if |bs| > 1 {
      assert bs[1].addr == bs[0].End();
      BytesAddUp(bs[1..], bs[0].End(), hi);
    } else {
      assert bs[1..] == [];
    }
  }

  function Total(bs: seq<Block>): nat {
    if bs == [] then 0 else HEADER + bs[0].size + Total(bs[1..])
  }
}
