/**
 The allocator on its arena.  Headers and payloads share one array of cells, one per byte:
 the first cell of a header carries its fields and the rest are padding, so that a write to
 a payload that strayed into a header would destroy it, and the other way round.
 */
module HeapArena {
  import opened HeapBlocks

  newtype byte = x: int | 0 <= x < 256

  /** Sizes are unsigned 64-bit numbers. */
  const U64: nat := 0x1_0000_0000_0000_0000

  datatype Ptr = Null | At(addr: nat)

  datatype Cell = Data(value: byte) | Head(size: nat, next: Ptr, free: bool) | Padding

  /** The sum as the machine computes it. */
  function AddU64(a: nat, b: nat): nat {
    (a + b) % U64
  }

  function NextOf(bs: seq<Block>, i: nat): Ptr {
    if i + 1 < |bs| then At(bs[i + 1].addr) else Null
  }

  /** The header of block `i` stands in the arena and points to the next one. */
  ghost predicate HeaderStands(m: seq<Cell>, bs: seq<Block>, i: nat)
    requires i < |bs|
  {
    && bs[i].End() <= HEAP && bs[i].addr < |m|
    && m[bs[i].addr] == Head(bs[i].size, NextOf(bs, i), bs[i].free)
  }

  /** The arena holds the headers of `bs`, linked in order. */
  ghost predicate Image(m: seq<Cell>, bs: seq<Block>) {
    && |m| == HEAP && Tiles(bs)
    && forall i :: 0 <= i < |bs| ==> HeaderStands(m, bs, i)
  }

  /** Address `a` is a byte of a live payload. */
  ghost predicate InLivePayload(bs: seq<Block>, a: int) {
    exists b :: b in bs && !b.free && b.Payload() <= a < b.End()
  }

  /** The two arenas agree on the payloads of the live blocks of `bs`. */
  ghost predicate PayloadsKept(m: seq<Cell>, m': seq<Cell>, bs: seq<Block>) {
    |m| == |m'| && forall a {:trigger m'[a]} :: 0 <= a < |m| && InLivePayload(bs, a) ==> m'[a] == m[a]
  }

  /** The sum that decides about a split is only computed once a block has been found that is big
      enough, and then it does not wrap. */
  lemma GuardedSumCannotWrap(bs: seq<Block>, size: nat)
    requires Tiles(bs) && FirstFit(bs, size) < |bs|
    ensures AddU64(size, HEADER) == size + HEADER
  {
    TilesWithin(bs, FirstFit(bs, size));
  }

  // ------------------------------------------------------------ what the header writes amount to

  lemma {:induction false} FitIsFirst(bs: seq<Block>, size: nat, i: nat)
    requires i < |bs| && bs[i].free && bs[i].size >= size
    requires forall j :: 0 <= j < i ==> !(bs[j].free && bs[j].size >= size)
    ensures FirstFit(bs, size) == i
  {
  }

  /** Nothing of a live payload lies in a free block. */
  lemma LivePayloadElsewhere(bs: seq<Block>, k: nat, a: int)
    requires Tiles(bs) && k < |bs| && bs[k].free && InLivePayload(bs, a)
    ensures a < bs[k].addr || bs[k].End() <= a
  {
    FreeBlockIsUnclaimed(bs, k);
  }

  /** A header elsewhere is out of reach of a write inside block `k`. */
  lemma HeaderElsewhere(bs: seq<Block>, k: nat, i: nat)
    requires Tiles(bs) && k < |bs| && i < |bs| && i != k
    ensures bs[i].addr < bs[k].addr || bs[k].End() <= bs[i].addr
  {
    if i < k {
      TilesOrdered(bs, i, k);
    } else {
      TilesOrdered(bs, k, i);
    }
  }

  /** A write inside the free block `k` leaves the other headers and all live payloads alone. */
  ghost predicate WritesInside(m: seq<Cell>, m': seq<Cell>, b: Block) {
    |m'| == |m| && forall a {:trigger m'[a]} :: 0 <= a < |m| && !(b.addr <= a < b.End()) ==> m'[a] == m[a]
  }

  lemma WritesInsideKeepPayloads(m: seq<Cell>, m': seq<Cell>, bs: seq<Block>, k: nat)
    requires Tiles(bs) && k < |bs| && bs[k].free && WritesInside(m, m', bs[k])
    ensures PayloadsKept(m, m', bs)
  {
    forall a | 0 <= a < |m| && InLivePayload(bs, a)
      ensures m'[a] == m[a]
    {
      LivePayloadElsewhere(bs, k, a);
    }
  }

  lemma WritesInsideKeepHeader(m: seq<Cell>, m': seq<Cell>, bs: seq<Block>, k: nat, i: nat)
    requires Image(m, bs) && k < |bs| && i < |bs| && i != k && WritesInside(m, m', bs[k])
    ensures HeaderStands(m', bs, i)
  {
    assert HeaderStands(m, bs, i);
    HeaderElsewhere(bs, k, i);
  }

  /** `made` is `bs` with block `k` split in two, index by index. */
  ghost predicate SplitOf(bs: seq<Block>, made: seq<Block>, k: nat, size: nat)
    requires k < |bs| && bs[k].size >= size + HEADER
  {
    && |made| == |bs| + 1
    && made[k] == Block(bs[k].addr, size, false)
    && made[k + 1] == Block(bs[k].Payload() + size, bs[k].size - size - HEADER, true)
    && (forall i :: 0 <= i < k ==> made[i] == bs[i])
    && (forall i :: k + 1 < i < |made| ==> made[i] == bs[i - 1])
  }

  lemma TwoInPlaceOfOne(bs: seq<Block>, k: nat, a: Block, b: Block)
    requires k < |bs|
    ensures var made := bs[..k] + [a, b] + bs[k + 1..];
      && |made| == |bs| + 1 && made[k] == a && made[k + 1] == b
      && (forall i :: 0 <= i < k ==> made[i] == bs[i])
      && (forall i :: k + 1 < i < |made| ==> made[i] == bs[i - 1])
  {
  }

  lemma CarveSplits(bs: seq<Block>, k: nat, size: nat)
    requires k < |bs| && bs[k].size > size + HEADER
    ensures SplitOf(bs, bs[..k] + Carve(bs[k], size) + bs[k + 1..], k, size)
  {
    var c := Carve(bs[k], size);
    assert c == [c[0], c[1]];
    TwoInPlaceOfOne(bs, k, c[0], c[1]);
  }

  lemma AllocateSplits(bs: seq<Block>, size: nat)
    requires FirstFit(bs, size) < |bs| && bs[FirstFit(bs, size)].size > size + HEADER
    ensures SplitOf(bs, Allocate(bs, size), FirstFit(bs, size), size)
  {
    hide FirstFit, SplitOf, Carve;
    CarveSplits(bs, FirstFit(bs, size), size);
  }

  /** The two header writes of a split. */
  lemma SplitImage(m: seq<Cell>, m': seq<Cell>, bs: seq<Block>, made: seq<Block>, k: nat, size: nat)
    requires Image(m, bs) && k < |bs| && bs[k].size > size + HEADER && bs[k].End() <= HEAP
    requires SplitOf(bs, made, k, size) && Tiles(made)
    requires WritesInside(m, m', bs[k])
    requires m'[bs[k].addr] == Head(size, At(bs[k].Payload() + size), false)
    requires m'[bs[k].Payload() + size] == Head(bs[k].size - size - HEADER, NextOf(bs, k), true)
    ensures Image(m', made)
  {
    forall i | 0 <= i < |made|
      ensures HeaderStands(m', made, i)
    {
      if i < k {
        WritesInsideKeepHeader(m, m', bs, k, i);
      } else if i > k + 1 {
        WritesInsideKeepHeader(m, m', bs, k, i - 1);
      }
    }
  }

  lemma WholeIsTaken(bs: seq<Block>, size: nat)
    requires FirstFit(bs, size) < |bs| && bs[FirstFit(bs, size)].size <= size + HEADER
    ensures var k := FirstFit(bs, size); Allocate(bs, size) == bs[k := bs[k].(free := false)]
  {
    hide FirstFit;
  }

  /** Handing out a whole block. */
  lemma TakeWholeImage(m: seq<Cell>, m': seq<Cell>, bs: seq<Block>, size: nat)
    requires Image(m, bs) && Inv(bs) && FirstFit(bs, size) < |bs|
    requires var k := FirstFit(bs, size); var b := bs[k];
      b.size <= size + HEADER && b.End() <= HEAP && m' == m[b.addr := Head(b.size, NextOf(bs, k), false)]
    ensures Image(m', Allocate(bs, size)) && WritesInside(m, m', bs[FirstFit(bs, size)])
  {
    hide Allocate, FirstFit, NoAdjacentFree;
    var k := FirstFit(bs, size);
    var made := Allocate(bs, size);
    AllocateKeepsInv(bs, size);
    WholeIsTaken(bs, size);
    forall i | 0 <= i < |made|
      ensures HeaderStands(m', made, i)
    {
      assert NextOf(made, i) == NextOf(bs, i);
      if i != k {
        WritesInsideKeepHeader(m, m', bs, k, i);
      }
    }
  }

  /** Marking block `k` free and scribbling over its payload. */
  lemma MarkImage(m: seq<Cell>, m': seq<Cell>, bs: seq<Block>, k: nat)
    requires Image(m, bs) && k < |bs| && WritesInside(m, m', bs[k]) && HeaderStands(m, bs, k)
    requires m'[bs[k].addr] == m[bs[k].addr].(free := true)
    ensures Image(m', bs[k := bs[k].(free := true)])
    ensures PayloadsKept(m, m', bs[k := bs[k].(free := true)])
  {
    var marked := bs[k := bs[k].(free := true)];
    MarkTiles(bs, k);
    forall i | 0 <= i < |marked|
      ensures HeaderStands(m', marked, i)
    {
      assert NextOf(marked, i) == NextOf(bs, i);
      if i != k {
        WritesInsideKeepHeader(m, m', bs, k, i);
      }
    }
    WritesInsideKeepPayloads(m, m', marked, k);
  }

  /** Blocks `i` and `i + 1` become one. */
  function MergeAt(bs: seq<Block>, i: nat): seq<Block>
    requires i + 1 < |bs|
  {
    bs[..i] + [Block(bs[i].addr, bs[i].size + bs[i + 1].size + HEADER, true)] + bs[i + 2..]
  }

  lemma MergeAtTiles(bs: seq<Block>, i: nat)
    requires Tiles(bs) && i + 1 < |bs|
    ensures Tiles(MergeAt(bs, i))
  {
    var merged := MergeAt(bs, i);
    assert bs[i + 1].addr == bs[i].End();
    assert i > 0 ==> bs[i].addr == bs[i - 1].End();
    forall a, b | 0 <= a < |merged| && b == a + 1 < |merged|
      ensures merged[b].addr == merged[a].End()
    {
      if a < i {
        assert merged[a] == bs[a];
        assert b < i ==> merged[b] == bs[b];
      } else {
        assert merged[b] == bs[b + 1] && bs[b + 1].addr == bs[b].End();
        assert a > i ==> merged[a] == bs[a + 1];
      }
    }
    assert merged[|merged| - 1].End() == HEAP;
  }

  /** One round of merging writes one header, inside a free block. */
  lemma MergeImage(m: seq<Cell>, m': seq<Cell>, bs: seq<Block>, i: nat)
    requires Image(m, bs) && i + 1 < |bs| && bs[i].free && bs[i + 1].free && bs[i].addr < |m|
    requires m' == m[bs[i].addr := Head(bs[i].size + bs[i + 1].size + HEADER, NextOf(bs, i + 1), true)]
    ensures Image(m', MergeAt(bs, i)) && PayloadsKept(m, m', bs)
  {
    var merged := MergeAt(bs, i);
    MergeAtTiles(bs, i);
    forall j | 0 <= j < |merged|
      ensures HeaderStands(m', merged, j)
    {
      if j < i {
        assert merged[j] == bs[j] && NextOf(merged, j) == NextOf(bs, j);
        WritesInsideKeepHeader(m, m', bs, i, j);
      } else if j > i {
        assert merged[j] == bs[j + 1] && NextOf(merged, j) == NextOf(bs, j + 1);
        WritesInsideKeepHeader(m, m', bs, i, j + 1);
      } else {
        TilesWithin(merged, i);
        assert NextOf(merged, i) == NextOf(bs, i + 1);
      }
    }
    WritesInsideKeepPayloads(m, m', bs, i);
  }

  /** Merging at `i` is one unfolding of the specification. */
  lemma MergeAtCoalesces(bs: seq<Block>, i: nat)
    requires i + 1 < |bs| && bs[i].free && bs[i + 1].free
    ensures MergeAt(bs, i)[..i] == bs[..i]
    ensures Coalesce(MergeAt(bs, i)[i..]) == Coalesce(bs[i..])
    ensures forall b :: b in bs && !b.free ==> b in MergeAt(bs, i)
  {
    var merged := MergeAt(bs, i);
    assert merged[i..] == MergeFirst(bs[i..]);
    forall b | b in bs && !b.free
      ensures b in merged
    {
      var j :| 0 <= j < |bs| && bs[j] == b;
      assert b == if j < i then merged[j] else merged[j - 1];
    }
  }

  /** Passing over block `i` is the other unfolding. */
  lemma CoalesceSkips(bs: seq<Block>, i: nat)
    requires i + 1 < |bs| && !(bs[i].free && bs[i + 1].free)
    ensures bs[..i] + Coalesce(bs[i..]) == bs[..i + 1] + Coalesce(bs[i + 1..])
  {
    assert bs[i..][1..] == bs[i + 1..] && bs[..i + 1] == bs[..i] + [bs[i]];
  }

  lemma CoalesceEnds(bs: seq<Block>, i: nat)
    requires i + 1 == |bs|
    ensures bs[..i] + Coalesce(bs[i..]) == bs
  {
  }

  /** Payloads kept twice over are kept, as long as no live block disappears in between. */
  lemma PayloadsKeptTrans(m0: seq<Cell>, m1: seq<Cell>, m2: seq<Cell>, bs: seq<Block>, cs: seq<Block>)
    requires PayloadsKept(m0, m1, bs) && PayloadsKept(m1, m2, cs)
    requires forall b :: b in bs && !b.free ==> b in cs
    ensures PayloadsKept(m0, m2, bs)
  {
    forall a | 0 <= a < |m0| && InLivePayload(bs, a)
      ensures m2[a] == m0[a]
    {
      var b :| b in bs && !b.free && b.Payload() <= a < b.End();
      assert b in cs;
      assert InLivePayload(cs, a);
      assert m1[a] == m0[a];
    }
  }

  class Arena {
    const mem: array<Cell>
    var heap: Ptr
    /** The blocks in list order. */
    ghost var blocks: seq<Block>

    ghost predicate Valid()
      reads this, mem
    {
      heap == At(0) && Image(mem[..], blocks) && Inv(blocks)
    }

    /** Maps the arena and makes it one free block. */
    constructor ()
      ensures Valid() && blocks == INITIAL && fresh(mem)
    {
      mem := new Cell[HEAP](_ => Data(0));
      heap := At(0);
      blocks := INITIAL;
      new;
      WriteHeader(0, Head(HEAP - HEADER, Null, true));
    }

    /** Writes a whole header. */
    method WriteHeader(a: nat, h: Cell)
      requires a + HEADER <= mem.Length
      modifies mem
      ensures mem[a] == h
      ensures forall x :: 0 <= x < mem.Length && !(a <= x < a + HEADER) ==> mem[x] == old(mem[x])
    {
      forall x | a < x < a + HEADER {
        mem[x] := Padding;
      }
      mem[a] := h;
    }

    /** Hands out the first block that fits, split if the rest can carry a header and more. */
    method MyMalloc(size: nat) returns (p: Ptr)
      requires Valid() && size < U64
      modifies this, mem
      ensures Valid() && blocks == Allocate(old(blocks), size)
      ensures p == var k := FirstFit(old(blocks), size);
        if k == |old(blocks)| then Null else At(old(blocks)[k].Payload())
      ensures PayloadsKept(old(mem[..]), mem[..], old(blocks))
    {
      var current := heap;
      ghost var i := 0;
      while current.At?
        invariant 0 <= i <= |blocks|
        invariant current == if i < |blocks| then At(blocks[i].addr) else Null
        invariant forall j :: 0 <= j < i ==> !(blocks[j].free && blocks[j].size >= size)
        decreases |blocks| - i
        modifies {}
      {
        assert HeaderStands(mem[..], blocks, i);
        if mem[current.addr].free && mem[current.addr].size >= size {
          break;
        }
        current := mem[current.addr].next;
        i := i + 1;
      }
      if current.Null? {
        return Null;
      }
      FitIsFirst(blocks, size, i);
      Take(current.addr, size);
      p := At(current.addr + HEADER);
    }

    /** What the loop does with the block it has found. */
    method Take(c: nat, size: nat)
      requires Valid() && size < U64
      requires FirstFit(blocks, size) < |blocks| && c == blocks[FirstFit(blocks, size)].addr
      modifies this, mem
      ensures Valid() && blocks == Allocate(old(blocks), size)
      ensures PayloadsKept(old(mem[..]), mem[..], old(blocks))
    {
      ghost var m, k := mem[..], FirstFit(blocks, size);
      assert HeaderStands(m, blocks, k);
      GuardedSumCannotWrap(blocks, size);
      if mem[c].size > AddU64(size, HEADER) {
        Split(c, size);
      } else {
        mem[c] := mem[c].(free := false);
        TakeWholeImage(m, mem[..], blocks, size);
        WritesInsideKeepPayloads(m, mem[..], blocks, k);
        AllocateKeepsInv(blocks, size);
        blocks := Allocate(blocks, size);
      }
    }

    method Split(c: nat, size: nat)
      requires Valid() && FirstFit(blocks, size) < |blocks|
      requires var b := blocks[FirstFit(blocks, size)];
        c == b.addr && b.size > size + HEADER
      modifies this, mem
      ensures Valid() && blocks == Allocate(old(blocks), size)
      ensures PayloadsKept(old(mem[..]), mem[..], old(blocks))
    {
      ghost var m, k := mem[..], FirstFit(blocks, size);
      assert HeaderStands(m, blocks, k);
      var newMem := c + HEADER + size;
      WriteHeader(newMem, Head(mem[c].size - size - HEADER, mem[c].next, true));
      mem[c] := Head(size, At(newMem), false);
      AllocateSplits(blocks, size);
      AllocateKeepsInv(blocks, size);
      SplitImage(m, mem[..], blocks, Allocate(blocks, size), k, size);
      WritesInsideKeepPayloads(m, mem[..], blocks, k);
      blocks := Allocate(blocks, size);
    }

    /** Merges free neighbours, front to back. */
    method MergeBlocks()
      requires heap == At(0) && Image(mem[..], blocks)
      modifies this, mem
      ensures heap == At(0) && Image(mem[..], blocks) && blocks == Coalesce(old(blocks))
      ensures PayloadsKept(old(mem[..]), mem[..], old(blocks))
    {
      var current := heap;
      ghost var i := 0;
      assert blocks[0..] == blocks && HeaderStands(mem[..], blocks, 0);
      while current.At? && mem[current.addr].next.At?
        invariant heap == At(0) && Image(mem[..], blocks)
        invariant 0 <= i < |blocks| && current == At(blocks[i].addr) && HeaderStands(mem[..], blocks, i)
        invariant Coalesce(old(blocks)) == blocks[..i] + Coalesce(blocks[i..])
        invariant PayloadsKept(old(mem[..]), mem[..], old(blocks))
        invariant forall b :: b in old(blocks) && !b.free ==> b in blocks
        decreases |blocks| - i
      {
        var c := current.addr;
        assert HeaderStands(mem[..], blocks, i + 1);
        if mem[c].free && mem[mem[c].next.addr].free {
          ghost var m, before := mem[..], blocks;
          MergeNext(c, i);
          PayloadsKeptTrans(old(mem[..]), m, mem[..], old(blocks), before);
          MergeAtCoalesces(before, i);
        } else {
          CoalesceSkips(blocks, i);
          current := mem[c].next;
          i := i + 1;
        }
      }
      CoalesceEnds(blocks, i);
    }

    /** The branch of the loop that swallows the next block. */
    method MergeNext(c: nat, ghost i: nat)
      requires heap == At(0) && Image(mem[..], blocks)
      requires i + 1 < |blocks| && c == blocks[i].addr && blocks[i].free && blocks[i + 1].free
      modifies this`blocks, mem
      ensures Image(mem[..], blocks) && blocks == MergeAt(old(blocks), i)
      ensures PayloadsKept(old(mem[..]), mem[..], old(blocks))
    {
      ghost var m := mem[..];
      assert HeaderStands(m, blocks, i) && HeaderStands(m, blocks, i + 1);
      var n := mem[c].next.addr;
      mem[c] := mem[c].(size := mem[c].size + (mem[n].size + HEADER));
      mem[c] := mem[c].(next := mem[n].next);
      MergeImage(m, mem[..], blocks, i);
      blocks := MergeAt(blocks, i);
    }

    /** Takes back a payload: marks the block free, overwrites the payload and merges. */
    method MyFree(memory: Ptr)
      requires Valid()
      requires memory.At? ==> Find(blocks, memory.addr) < |blocks|
      modifies this, mem
      ensures Valid()
      ensures memory.Null? ==> blocks == old(blocks) && mem[..] == old(mem[..])
      ensures memory.At? ==>
        && blocks == Release(old(blocks), memory.addr)
        && PayloadsKept(old(mem[..]), mem[..],
             old(blocks)[Find(old(blocks), memory.addr) := old(blocks)[Find(old(blocks), memory.addr)].(free := true)])
    {
      if memory.Null? {
        return;
      }
      ghost var m, k := mem[..], Find(blocks, memory.addr);
      assert HeaderStands(m, blocks, k);
      var c := memory.addr - HEADER;
      mem[c] := mem[c].(free := true);
      var size := mem[c].size;
      forall a | memory.addr <= a < memory.addr + size {
        mem[a] := Data(1);
      }
      ghost var m1 := mem[..];
      MarkImage(m, m1, blocks, k);
      ReleaseKeepsInv(blocks, memory.addr);
      blocks := blocks[k := blocks[k].(free := true)];
      ghost var marked := blocks;
      MergeBlocks();
      PayloadsKeptTrans(m, m1, mem[..], marked, marked);
    }

    /** A caller that writes into its own payload cannot harm the heap. */
    method Store(a: nat, v: byte)
      requires Valid() && InLivePayload(blocks, a) && a < mem.Length
      modifies mem
      ensures Valid() && mem[..] == old(mem[..])[a := Data(v)]
    {
      ghost var m := mem[..];
      mem[a] := Data(v);
      forall i | 0 <= i < |blocks|
        ensures HeaderStands(mem[..], blocks, i)
      {
        assert HeaderStands(m, blocks, i);
        PayloadIsNoHeader(blocks, i, a);
      }
    }
  }

  lemma PayloadIsNoHeader(bs: seq<Block>, i: nat, a: nat)
    requires Tiles(bs) && i < |bs| && InLivePayload(bs, a)
    ensures a < bs[i].addr || bs[i].addr + HEADER <= a
  {
    var b :| b in bs && !b.free && b.Payload() <= a < b.End();
    var j :| 0 <= j < |bs| && bs[j] == b;
    if j != i {
      HeaderElsewhere(bs, j, i);
      HeaderElsewhere(bs, i, j);
    }
  }

  /** The allocator carries out a history of calls, the last one first in the list, as specified; so
      when the caller has freed everything, the arena is one free block again. */
  method RunCalls(calls: seq<Call>) returns (h: Arena)
    requires WellBehaved(calls)
    requires forall i :: 0 <= i < |calls| && calls[i].Malloc? ==> calls[i].size < U64
    ensures fresh(h) && fresh(h.mem) && h.Valid() && h.blocks == After(calls).blocks
    ensures After(calls).pointers == {} ==> h.blocks == INITIAL
    decreases |calls|
  {
    if calls == [] {
      h := new Arena();
    } else {
      h := RunCalls(calls[1..]);
      RunKeepsInv(calls[1..]);
      match calls[0]
      case Malloc(size) =>
        assert calls[0].Malloc?;
        var _ := h.MyMalloc(size);
      case Free(p) =>
        FindsLivePointer(h.blocks, p);
        h.MyFree(At(p));
    }
    if After(calls).pointers == {} {
      AllFreedRestoresHeap(calls);
    }
  }
}
