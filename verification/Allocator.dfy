/** The segregated-fit allocator: mm_init, mm_malloc, mm_free and mm_realloc over a byte heap.

    Pointers are byte offsets from `mem_heap_lo()`, NULL is 0. The head table `free_listps`, which the
    source keeps in the first 128 bytes of the heap, is the array `heads`. */
module Allocator {
  import opened Bytes
  import opened HeapLayout
  import opened Buckets
  import opened FreeLists
  import opened HeapState

  const WSIZE := 4
  const DSIZE := 8
  const INITCHUNKSIZE := 128
  const CHUNKSIZE := 4096
  const REALLOCCHUNKSIZE := 64
  const BIGSIZE := 108

  function Max(x: int, y: int): int { if x > y then x else y }

  /** The largest request whose block size, once aligned, is still a size_t. */
  const MAX_REQUEST := 0xFFFF_FFFF_FFFF_FFF0

  /** The block size mm_malloc looks for, and what it extends the heap by when there is none. */
  function BlockSize(size: nat): nat { Align(size) + DSIZE }

  function Chunk(size: nat): nat { Align(Max(BlockSize(size), CHUNKSIZE)) }

  /** No free block has `asize` bytes. */
  ghost predicate NoFit(blk: map<int, Block>, asize: int) {
    forall x :: x in blk && !blk[x].alloc ==> blk[x].size < asize
  }

  /** By how much mm_realloc of block `b` to `newsize` bytes would extend the heap, and whether it does: the
      room behind the block is too small, nothing but free space follows it, and the extension fits. */
  ghost function Extension(blk: map<int, Block>, b: int, newsize: int): nat
    requires b in blk
  {
    Align(Max(newsize - blk[b].size - FreeAfter(blk, b), REALLOCCHUNKSIZE))
  }

  ghost predicate Extends(brk: int, blk: map<int, Block>, b: int, newsize: int, capacity: int)
    requires b in blk
  {
    && blk[b].size + FreeAfter(blk, b) < newsize && AtEnd(brk, blk, b)
    && brk + Extension(blk, b, newsize) <= capacity
  }

  /** The block is resized where it is. */
  ghost predicate Stays(brk: int, blk: map<int, Block>, b: int, newsize: int, capacity: int)
    requires b in blk
  {
    newsize <= blk[b].size + FreeAfter(blk, b) || Extends(brk, blk, b, newsize, capacity)
  }

  /** Neither a free block nor the heap has room for a request of `size` bytes. */
  ghost predicate NoRoom(brk: int, blk: map<int, Block>, size: nat, capacity: int) {
    NoFit(blk, BlockSize(size)) && brk + Chunk(size) > capacity
  }

  /** The break after mm_malloc, and after mm_realloc of a live block to a size that is not 0. */
  ghost function BreakAfterMalloc(brk: int, blk: map<int, Block>, size: nat, capacity: int): int {
    if !NoFit(blk, BlockSize(size)) || NoRoom(brk, blk, size, capacity) then brk else brk + Chunk(size)
  }

  ghost function BreakAfterRealloc(brk: int, blk: map<int, Block>, b: int, size: nat, capacity: int): int
    requires b in blk
  {
    if Extends(brk, blk, b, BlockSize(size), capacity) then brk + Extension(blk, b, BlockSize(size))
    else if Stays(brk, blk, b, BlockSize(size), capacity) then brk
    else BreakAfterMalloc(brk, blk, size, capacity)
  }

  /** A size below 2^32 reaches mem_sbrk as itself, or as a negative number that it refuses. */
  lemma ToIntCases(x: nat)
    requires x < 0x1_0000_0000
    ensures ToInt(x) == if x < 0x8000_0000 then x else x - 0x1_0000_0000
  {
  }

  /** mem_sbrk takes an int. An amount that reaches it as itself, or as one it refuses as it would the amount. */
  ghost predicate Honest(brk: int, amount: nat, capacity: int) {
    amount < 0x1_0000_0000 || ToInt(amount) < 0 || brk + ToInt(amount) > capacity
  }

  /** For just these amounts mem_sbrk says whether there is room. */
  lemma HonestSbrk(brk: int, amount: nat, capacity: int)
    requires 0 <= brk <= capacity < 0x8000_0000
    ensures Honest(brk, amount, capacity) <==>
      (0 <= ToInt(amount) && brk + ToInt(amount) <= capacity <==> brk + amount <= capacity)
  {
  }

  /** Requests below 2^32 - 15 are all honest. */
  lemma SmallHonest(brk: int, size: nat, capacity: int)
    requires size <= 0xFFFF_FFF0
    ensures Honest(brk, Chunk(size), capacity)
  {
    assert Align(size) <= 0xFFFF_FFF0 by { assert size + 7 < 0xFFFF_FFF8; }
    assert Align(BlockSize(size)) == BlockSize(size);
  }

  /** The block size of the last fifteen size_t values wraps to one that can hold no block. */
  lemma TopRequestWraps(size: nat)
    requires MAX_REQUEST < size < 0x1_0000_0000_0000_0000
    ensures BlockSize(size) >= 0x1_0000_0000_0000_0000 && BlockSize(size) % 0x1_0000_0000_0000_0000 <= 8
  {
  }

  /** Why requests are bounded: 2^32 bytes reach mem_sbrk as 8, which it grants. */
  lemma HugeRequestWraps()
    ensures Chunk(0x1_0000_0000) == 0x1_0000_0008
    ensures ToInt(Chunk(0x1_0000_0000)) == 8
  {
    assert Align(0x1_0000_0000) == 0x1_0000_0000;
    assert Align(0x1_0000_0008) == 0x1_0000_0008;
  }

  /** mem_sbrk is asked for the wrong non-negative amount exactly from 2^32 on, when the low word is below 2^31. */
  lemma SbrkAmount(x: nat)
    ensures 0 <= ToInt(x) != x <==> x >= 0x1_0000_0000 && x % 0x1_0000_0000 < 0x8000_0000
  {
  }

  class Heap {
    const mem: array<byte>
    const heads: array<int>
    var brk: int

    ghost var blk: map<int, Block>
    ghost var nodes: map<int, Node>
    ghost var stamp: int

    /** Memory, head table and abstract state agree; some free block may be in transit. */
    ghost predicate Ok()
      reads this, mem, heads
    {
      && (mem as object) != heads
      && Consistent(mem[..], heads[..], brk, blk, nodes, stamp)
    }

    /** What holds between client calls. */
    ghost predicate Valid()
      reads this, mem, heads
    {
      Ok() && Settled(blk, nodes.Keys)
    }

    /** The live payloads. */
    ghost function Live(): map<int, seq<byte>>
      reads this, mem
    {
      Contents(mem[..], blk)
    }

    function Get(p: int): nat
      reads mem
    {
      Word(mem[..], p)
    }

    function GetSize(bp: int): nat
      reads mem
    {
      SizeOf(Get(bp - WSIZE))
    }

    predicate GetAlloc(bp: int)
      reads mem
    {
      AllocOf(Get(bp - WSIZE))
    }

    function NextBlkp(bp: int): int
      reads mem
    {
      bp + GetSize(bp)
    }

    function PrevBlkp(bp: int): int
      reads mem
    {
      bp - SizeOf(Get(bp - DSIZE))
    }

    /** PUT: store a 32-bit word. */
    method Put(p: int, v: int)
      requires 0 <= p <= mem.Length - 4 && 0 <= v < WORD_LIMIT
      modifies mem
      ensures Word(mem[..], p) == v
      ensures SameOutside(old(mem[..]), mem[..], p, p + 4)
      ensures forall q {:trigger Word(mem[..], q)} ::
        q + 4 <= p || p + 4 <= q ==> Word(mem[..], q) == Word(old(mem[..]), q)
    {
      var s := Encode(v, 4);
      mem[p], mem[p + 1], mem[p + 2], mem[p + 3] := s[0], s[1], s[2], s[3];
      assert mem[..][p..p + 4] == s;
      assert Pow256(4) == WORD_LIMIT;
      DecodeEncode(v, 4);
      WordsSame(old(mem[..]), mem[..], p, p + 4);
    }

    /** The blocks of list `k` from its head. */
    ghost function FreeList(k: int): seq<int>
      requires Ok() && 0 <= k < LISTMAX
      reads this, mem, heads
    {
      ListOf(nodes, heads[..], stamp, k)
    }

    /** The list a free block belongs to: get_free_listpp on the size in its header. */
    method ListIndex(bp: int) returns (k: nat)
      requires Ok()
      requires bp in blk && 16 <= blk[bp].size
      ensures k == ListFor(blk[bp].size)
    {
      ReadBlock(mem[..], brk, blk, bp);
      assert BlockAligned(blk, bp);
      k := GetFreeListIndex(GetSize(bp));
    }

    /** The PUTs of insert_freeblk: `bp` becomes the predecessor of the old head `h`. */
    method LinkBefore(bp: int, h: int)
      requires PROLOGUE < bp <= mem.Length - 8 && mem.Length < 0x8000_0000
      requires h == 0 || (PROLOGUE < h <= mem.Length - 8 && (h + 8 <= bp || bp + 8 <= h))
      modifies mem
      ensures OnlyLinks(old(mem[..]), mem[..], bp, if h == 0 then bp else h)
      ensures Word(mem[..], bp) == 0 && Word(mem[..], bp + 4) == OffsetOf(h)
      ensures h != 0 ==> Word(mem[..], h) == OffsetOf(bp) && Word(mem[..], h + 4) == Word(old(mem[..]), h + 4)
    {
      if h != 0 {
        Put(h, OffsetOf(bp));
        Put(bp + WSIZE, OffsetOf(h));
        Put(bp, 0);
      } else {
        Put(bp + WSIZE, 0);
        Put(bp, 0);
      }
    }

    /** insert_freeblk */
    method InsertFreeblk(bp: int)
      requires Ok()
      requires bp in blk && bp !in nodes && !blk[bp].alloc && 16 <= blk[bp].size && PROLOGUE < bp
      modifies mem, heads, this`nodes, this`stamp
      ensures Ok()
      ensures nodes.Keys == old(nodes.Keys) + {bp}
      ensures heads[..] == old(heads[..])[ListFor(blk[bp].size) := bp]
      ensures forall j {:trigger FreeList(j)} :: 0 <= j < LISTMAX ==>
        FreeList(j) == (if j == ListFor(blk[bp].size) then [bp] else []) + old(FreeList(j))
      ensures Live() == old(Live())
    {
      ghost var m, hs, nodes0, stamp0 := mem[..], heads[..], nodes, stamp;
      var k := ListIndex(bp);
      var h := heads[k];
      HeadApart(m, hs, brk, blk, nodes, stamp, bp, k);
      LinkBefore(bp, h);
      InsertConsistent(m, mem[..], hs, brk, blk, nodes, stamp, bp);
      heads[k] := bp;
      assert heads[..] == hs[k := bp];
      PushedKeys(nodes, h, stamp, bp, k);
      nodes, stamp := Pushed(nodes, h, stamp, bp, k), stamp + 1;
      forall j {:trigger FreeList(j)} | 0 <= j < LISTMAX
        ensures FreeList(j) == (if j == k then [bp] else []) + old(FreeList(j))
      {
        PushOrder(nodes0, hs, stamp0, bp, k, j);
      }
    }

    /** The PUTs of remove_freeblk: the neighbours of `bp` are linked to each other. */
    method LinkAcross(bp: int, prev: int, next: int)
      requires mem.Length < 0x8000_0000
      requires prev == 0 || PROLOGUE < prev <= mem.Length - 8
      requires next == 0 || PROLOGUE < next <= mem.Length - 8
      requires PROLOGUE < bp <= mem.Length - 8
      requires prev != 0 && next != 0 ==> next + 8 <= prev || prev + 8 <= next
      requires prev != 0 ==> prev + 8 <= bp || bp + 8 <= prev
      requires next != 0 ==> next + 8 <= bp || bp + 8 <= next
      requires Get(bp) == OffsetOf(prev) && Get(bp + WSIZE) == OffsetOf(next)
      modifies mem
      ensures OnlyLinks(old(mem[..]), mem[..], if prev == 0 then bp else prev, if next == 0 then bp else next)
      ensures prev != 0 ==> Word(mem[..], prev) == Word(old(mem[..]), prev) && Word(mem[..], prev + 4) == OffsetOf(next)
      ensures next != 0 ==> Word(mem[..], next) == OffsetOf(prev)
      ensures next != 0 ==> Word(mem[..], next + 4) == Word(old(mem[..]), next + 4)
    {
      if prev != 0 && next != 0 {
        Put(prev + WSIZE, Get(bp + WSIZE));
        Put(next, Get(bp));
      } else if prev != 0 && next == 0 {
        Put(prev + WSIZE, 0);
      } else if prev == 0 && next != 0 {
        Put(next, 0);
      }
    }

    /** PREV_FREEP and NEXT_FREEP: follow a link, NULL if it is 0. */
    function Follow(p: int): int
      reads mem
    {
      if Get(p) != 0 then PROLOGUE + Get(p) else 0
    }

    /** remove_freeblk */
    method RemoveFreeblk(bp: int)
      requires Ok() && bp in nodes
      modifies mem, heads, this`nodes
      ensures Ok()
      ensures nodes.Keys == old(nodes.Keys) - {bp}
      ensures forall j {:trigger FreeList(j)} :: 0 <= j < LISTMAX ==> FreeList(j) == Without(old(FreeList(j)), bp)
      ensures Live() == old(Live())
    {
      ghost var m, hs, nodes0 := mem[..], heads[..], nodes;
      NeighboursApart(m, hs, brk, blk, nodes, stamp, bp);
      var k := ListIndex(bp);
      var prev := Follow(bp);
      var next := Follow(bp + WSIZE);
      LinkAcross(bp, prev, next);
      RemoveConsistent(m, mem[..], hs, brk, blk, nodes, stamp, bp,
                       if prev == 0 then bp else prev, if next == 0 then bp else next);
      if prev == 0 {
        heads[k] := next;
      }
      assert heads[..] == HeadsWithout(nodes, hs, bp);
      UnlinkedKeys(nodes, bp);
      nodes := Unlinked(nodes, bp);
      forall j {:trigger FreeList(j)} | 0 <= j < LISTMAX
        ensures FreeList(j) == Without(old(FreeList(j)), bp)
      {
        UnlinkOrder(nodes0, hs, stamp, bp, j);
      }
    }

    /** PUT the same word at a block's header `h` and footer `f`. */
    method PutHeaderFooter(h: int, f: int, v: int)
      requires 0 <= h && h + 4 <= f <= mem.Length - 4 && 0 <= v < WORD_LIMIT
      modifies mem
      ensures Word(mem[..], h) == Word(mem[..], f) == v
      ensures OnlyTags(old(mem[..]), mem[..], h + 4, f - h + 4)
    {
      Put(h, v);
      Put(f, v);
    }

    /** The pair PUT(HDRP(bp), PACK(size, alloc)); PUT(FTRP(bp), PACK(size, alloc)). */
    method PutTags(bp: int, size: int, alloc: bool)
      requires PROLOGUE < bp && 8 <= size && Multiple8(size) && bp + size - 4 <= mem.Length < 0x8000_0000
      modifies mem
      ensures OnlyTags(old(mem[..]), mem[..], bp, size)
      ensures Word(mem[..], bp - 4) == Word(mem[..], bp + size - 8) == Tag(Block(size, alloc))
      ensures forall q {:trigger Word(mem[..], q)} ::
        q + 4 <= bp - 4 || (bp <= q && q + 4 <= bp + size - 8) || bp + size - 4 <= q ==>
          Word(mem[..], q) == Word(old(mem[..]), q)
    {
      var tag := Tag(Block(size, alloc));
      TagParts(Block(size, alloc));
      Put(bp - WSIZE, tag);
      Put(bp + GetSize(bp) - DSIZE, tag);
    }

    // The three merging cases of coalesce, once the free neighbours are unlinked: write the header of
    // the first block and the footer of the last.

    method FuseNext(bp: int, next: int, ghost e: int)
      requires Ok()
      requires Adjacent(blk, nodes.Keys, bp, next)
      requires next in blk && e == next + blk[next].size
      modifies mem, this`blk
      ensures Ok()
      ensures blk == Merged(old(blk), bp, e, false)
      ensures Live() == old(Live())
    {
      ghost var m := mem[..];
      var size := GetSize(bp) + GetSize(next);
      AdjacentSpan(m, heads[..], brk, blk, nodes, stamp, bp, next);
      PutTags(bp, size, false);
      assert bp + size == e;
      MergeFree(m, mem[..], heads[..], brk, blk, nodes, stamp, bp, e);
      blk := Merged(blk, bp, e, false);
    }

    method FusePrev(prev: int, bp: int, ghost e: int)
      requires Ok()
      requires Adjacent(blk, nodes.Keys, prev, bp)
      requires bp in blk && e == bp + blk[bp].size
      modifies mem, this`blk
      ensures Ok()
      ensures blk == Merged(old(blk), prev, e, false)
      ensures Live() == old(Live())
    {
      ghost var m := mem[..];
      var size := GetSize(bp) + GetSize(prev);
      AdjacentSpan(m, heads[..], brk, blk, nodes, stamp, prev, bp);
      PutHeaderFooter(prev - WSIZE, bp + GetSize(bp) - DSIZE, size);
      assert prev + size == e;
      MergeFree(m, mem[..], heads[..], brk, blk, nodes, stamp, prev, e);
      blk := Merged(blk, prev, e, false);
    }

    method FuseBoth(prev: int, bp: int, next: int, ghost e: int)
      requires Ok()
      requires Adjacent(blk, nodes.Keys, prev, bp) && Adjacent(blk, nodes.Keys, bp, next)
      requires next in blk && e == next + blk[next].size
      modifies mem, this`blk
      ensures Ok()
      ensures blk == Merged(old(blk), prev, e, false)
      ensures Live() == old(Live())
    {
      hide Consistent, Contents, Word, Tagged, Linked, Merged, SizeOf;
      ghost var m := mem[..];
      var size := GetSize(bp) + (GetSize(next) + GetSize(prev));
      AdjacentSpan(m, heads[..], brk, blk, nodes, stamp, prev, bp);
      AdjacentSpan(m, heads[..], brk, blk, nodes, stamp, bp, next);
      PutHeaderFooter(prev - WSIZE, next + GetSize(next) - DSIZE, size);
      assert prev + size == e;
      MergeFree(m, mem[..], heads[..], brk, blk, nodes, stamp, prev, e);
      blk := Merged(blk, prev, e, false);
    }

    // The merging cases up to the insertion of the merged block.

    method MergeNext(bp: int, next: int, ghost e: int)
      requires Ok()
      requires PROLOGUE < bp && bp in blk && bp !in nodes && !blk[bp].alloc
      requires next == bp + blk[bp].size && next in blk && !blk[next].alloc && next in nodes
      requires next in blk && e == next + blk[next].size
      modifies mem, heads, this`blk, this`nodes
      ensures Ok()
      ensures blk == Merged(old(blk), bp, e, false)
      ensures nodes.Keys == old(nodes.Keys) - {next}
      ensures Live() == old(Live())
    {
      RemoveFreeblk(next);
      FuseNext(bp, next, e);
    }

    method MergePrev(prev: int, bp: int, ghost e: int)
      requires Ok()
      requires PROLOGUE < prev && prev in blk && prev in nodes && !blk[prev].alloc
      requires bp == prev + blk[prev].size && bp in blk && bp !in nodes && !blk[bp].alloc
      requires bp in blk && e == bp + blk[bp].size
      modifies mem, heads, this`blk, this`nodes
      ensures Ok()
      ensures blk == Merged(old(blk), prev, e, false)
      ensures nodes.Keys == old(nodes.Keys) - {prev}
      ensures Live() == old(Live())
    {
      RemoveFreeblk(prev);
      FusePrev(prev, bp, e);
    }

    method MergeBoth(prev: int, bp: int, next: int, ghost e: int)
      requires Ok()
      requires PROLOGUE < prev && prev in blk && prev in nodes && !blk[prev].alloc
      requires bp == prev + blk[prev].size && bp in blk && bp !in nodes && !blk[bp].alloc && PROLOGUE < bp
      requires next == bp + blk[bp].size && next in blk && !blk[next].alloc && next in nodes && next != prev
      requires next in blk && e == next + blk[next].size
      modifies mem, heads, this`blk, this`nodes
      ensures Ok()
      ensures blk == Merged(old(blk), prev, e, false)
      ensures nodes.Keys == old(nodes.Keys) - {prev, next}
      ensures Live() == old(Live())
    {
      RemoveFreeblk(next);
      RemoveFreeblk(prev);
      FuseBoth(prev, bp, next, e);
    }

    /** The case split of coalesce, up to the insertion of the merged block. */
    method MergeNeighbours(bp: int) returns (r: int, ghost e: int)
      requires Ok()
      requires bp in blk && PROLOGUE < bp && bp !in nodes && !blk[bp].alloc
      requires SettledBut(blk, nodes.Keys, bp)
      modifies mem, heads, this`blk, this`nodes
      ensures Ok()
      ensures Span(old(blk), bp, r, e) && blk == Merged(old(blk), r, e, false)
      ensures r !in nodes && forall x :: x in old(nodes) && !(r <= x < e) ==> x in nodes
      ensures Live() == old(Live())
    {
      hide Contents, Word, SizeOf, AllocOf;
      var prev := PrevBlkp(bp);
      var next := NextBlkp(bp);
      var prevAlloc := GetAlloc(prev);
      var nextAlloc := GetAlloc(next);
      ghost var lo;
      lo, e := FindSpan(mem[..], brk, blk, nodes.Keys, bp, prev, next);
      if prevAlloc && nextAlloc {
        r := bp;
      } else if prevAlloc && !nextAlloc {
        r := bp;
        MergeNext(bp, next, e);
      } else if !prevAlloc && nextAlloc {
        r := prev;
        MergePrev(prev, bp, e);
      } else {
        r := prev;
        MergeBoth(prev, bp, next, e);
      }
    }

    /** coalesce: merge `bp` with its free neighbours and list the result. */
    method Coalesce(bp: int) returns (r: int, ghost e: int)
      requires Ok()
      requires bp in blk && PROLOGUE < bp && bp !in nodes && !blk[bp].alloc
      requires SettledBut(blk, nodes.Keys, bp)
      requires 16 <= blk[bp].size || NextFree(blk, bp)
      modifies mem, heads, this`blk, this`nodes, this`stamp
      ensures Valid()
      ensures Span(old(blk), bp, r, e) && blk == Merged(old(blk), r, e, false)
      ensures Live() == old(Live())
    {
      ghost var blk0, listed0 := blk, nodes.Keys;
      r, e := MergeNeighbours(bp);
      SpanNeighbours(brk, blk0, listed0, bp, r, e);
      MergedAt(blk0, r, e);
      InsertFreeblk(r);
      SettleMerge(brk, blk0, listed0, bp, r, e);
    }

    /** mem_sbrk: extend the heap, or fail with -1. */
    method MemSbrk(incr: int) returns (r: int)
      modifies this`brk
      ensures if incr < 0 || old(brk) + incr > mem.Length then r == -1 && brk == old(brk)
              else r == old(brk) && brk == old(brk) + incr
    {
      if incr < 0 || brk + incr > mem.Length {
        return -1;
      }
      r := brk;
      brk := brk + incr;
    }

    /** The PUTs of extend_heap: tags of the new free block and the new epilogue. */
    method PutFree(bp: int, size: int)
      requires PROLOGUE < bp && 8 <= size && Multiple8(size) && bp + size <= mem.Length < 0x8000_0000
      modifies mem
      ensures SameOutside(old(mem[..]), mem[..], bp - 4, bp + size)
      ensures Word(mem[..], bp - 4) == Word(mem[..], bp + size - 8) == Tag(Block(size, false))
      ensures Word(mem[..], bp + size - 4) == 1
    {
      PutTags(bp, size, false);
      TagParts(Block(size, false));
      assert NextBlkp(bp) == bp + size;
      Put(NextBlkp(bp) - WSIZE, 1);
    }

    /** The new block of extend_heap, before it is coalesced; the break has already moved. */
    method AddFree(bp: int, size: int)
      requires (mem as object) != heads && 16 <= size && Multiple8(size)
      requires brk == bp + size <= mem.Length
      requires Consistent(mem[..], heads[..], bp, blk, nodes, stamp) && Settled(blk, nodes.Keys)
      modifies mem, this`blk
      ensures Ok()
      ensures blk == old(blk)[bp := Block(size, false)]
      ensures bp !in nodes && PROLOGUE < bp && SettledBut(blk, nodes.Keys, bp)
      ensures Live() == old(Live())
    {
      hide Word, Tagged, Stored, Linked;
      ghost var m := mem[..];
      PutFree(bp, size);
      GrowConsistent(m, mem[..], heads[..], bp, blk, nodes, stamp, size);
      GrowSettled(bp, blk, nodes.Keys, size);
      blk := blk[bp := Block(size, false)];
    }

    /** The `size` bytes from `bp` on, which the break has just passed, become a free block and are coalesced. */
    method Annex(bp: int, size: int) returns (r: int)
      requires (mem as object) != heads && 16 <= size && Multiple8(size)
      requires brk == bp + size <= mem.Length
      requires Consistent(mem[..], heads[..], bp, blk, nodes, stamp) && Settled(blk, nodes.Keys)
      modifies mem, heads, this`blk, this`nodes, this`stamp
      ensures Valid() && r != 0
      ensures Extended(bp, old(blk), brk, blk, size, r)
      ensures Live() == old(Live())
    {
      hide Word, Tagged, Merged, Stored, Linked, Contents;
      ghost var blk0 := blk;
      AddFree(bp, size);
      ghost var e;
      r, e := Coalesce(bp);
      GrowSpan(bp, blk0, size, r, e);
    }

    /** extend_heap: add a free block of `size` bytes at the end and coalesce it; NULL if the heap is full. */
    method ExtendHeap(size: nat) returns (r: int)
      requires Valid()
      requires 16 <= size && Honest(brk, Align(size), mem.Length)
      modifies this, mem, heads
      ensures Valid()
      ensures r == 0 <==> old(brk) + Align(size) > mem.Length
      ensures r == 0 ==> brk == old(brk) && blk == old(blk)
      ensures r != 0 ==> Extended(old(brk), old(blk), brk, blk, Align(size), r)
      ensures Live() == old(Live())
    {
      hide Word, Tagged, Merged, Stored, Linked, Contents, Extended;
      var asize := Align(size);
      HonestSbrk(brk, asize, mem.Length);
      if asize < WORD_LIMIT {
        ToIntCases(asize);
      }
      var bp := MemSbrk(ToInt(asize));
      if bp == -1 {
        return 0;
      }
      r := Annex(bp, asize);
    }

    /** find_fit: first fit over the lists from the one that may hold `asize` upwards. */
    method FindFit(asize: nat) returns (r: int)
      requires Valid()
      requires 16 <= asize && Multiple8(asize)
      ensures r == 0 <==> NoFit(blk, asize)
      ensures r != 0 ==> FirstFit(blk, nodes, asize, r)
    {
      var i := GetFreeListIndex(asize);
      EarlierTooSmall(mem[..], blk, nodes, asize, i);
      while i < LISTMAX
        invariant 0 <= i <= LISTMAX
        invariant NoFitBefore(blk, nodes, asize, i)
      {
        r := SearchList(i, asize);
        if r != 0 {
          return;
        }
        i := i + 1;
      }
      NoFitAnywhere(mem[..], heads[..], blk, nodes, stamp, asize);
      r := 0;
    }

    /** The inner loop of find_fit. */
    method SearchList(i: int, asize: nat) returns (bp: int)
      requires Valid()
      requires 0 <= i < LISTMAX && NoFitBefore(blk, nodes, asize, i)
      ensures bp == 0 ==> NoFitBefore(blk, nodes, asize, i + 1)
      ensures bp != 0 ==> FirstFit(blk, nodes, asize, bp)
    {
      bp := heads[i];
      SearchStart(blk, nodes, heads[..], stamp, asize, i);
      while bp != 0
        invariant Searched(blk, nodes, heads[..], stamp, asize, i, bp)
        decreases if bp != 0 && bp in nodes then nodes[bp].rank + 1 else 0
      {
        ReadNode(mem[..], heads[..], brk, blk, nodes, stamp, bp);
        if GetSize(bp) >= asize {
          SearchHit(blk, nodes, heads[..], stamp, asize, i, bp);
          return;
        }
        SearchMiss(blk, nodes, heads[..], stamp, asize, i, bp);
        bp := Follow(bp + WSIZE);
      }
    }

    /** Two tag pairs: `bp` keeps `k` bytes, the rest of its block becomes a block of its own. */
    method Split(bp: int, k: int, left: bool, right: bool)
      requires Ok()
      requires bp in blk && bp !in nodes && PROLOGUE < bp && Multiple8(k) && 8 <= k <= blk[bp].size - 8
      modifies mem, this`blk
      ensures Ok()
      ensures bp + k !in nodes && blk == Cut(old(blk), bp, k, left, right)
      ensures SameLive(old(Live()), Live(), bp, bp + old(blk)[bp].size)
      ensures forall i :: bp <= i < bp + k - 8 && i < mem.Length ==> mem[..][i] == old(mem[..])[i]
    {
      hide Settled, Word, Tiling, Aligned, Cut, SizeOf;
      ghost var m := mem[..];
      var size := GetSize(bp);
      ReadBlock(m, brk, blk, bp);
      CutFits(brk, blk, bp, k);
      PutTags(bp, k, left);
      PutTags(bp + k, size - k, right);
      CutConsistent(m, mem[..], heads[..], brk, blk, nodes, stamp, bp, k, left, right);
      blk := Cut(blk, bp, k, left, right);
    }

    /** place: allocate `asize` bytes of free block `bp`, splitting it when the rest can stand alone. */
    method Place(bp: int, asize: int) returns (r: int)
      requires Valid()
      requires bp in nodes && bp in blk && 16 <= asize <= blk[bp].size && Multiple8(asize)
      modifies mem, heads, this`blk, this`nodes, this`stamp
      ensures Valid()
      ensures var remain := old(blk)[bp].size - asize;
        && r == (if remain >= 16 && asize > BIGSIZE then bp + remain else bp)
        && r in blk && blk[r] == Block(if remain < 16 then asize + remain else asize, true)
      ensures Gained(old(Live()), Live(), r)
    {
      ReadNode(mem[..], heads[..], brk, blk, nodes, stamp, bp);
      var size := GetSize(bp);
      var remain := size - asize;
      PlaceBounds(mem[..], brk, blk, nodes, bp, asize);
      RemoveFreeblk(bp);
      if remain < 16 {
        r := PlaceWhole(bp, size);
      } else if asize > BIGSIZE {
        r := PlaceRight(bp, remain, asize);
      } else {
        r := PlaceLeft(bp, asize);
      }
    }

    // The three cases of place, for a block just taken off its list.

    method PlaceWhole(bp: int, size: int) returns (r: int)
      requires Ok()
      requires InTransit(blk, nodes.Keys, bp) && size == blk[bp].size
      modifies mem, this`blk
      ensures Valid() && r == bp && bp in blk && blk[bp] == Block(size, true)
      ensures Gained(old(Live()), Live(), r)
    {
      ghost var m, c := mem[..], Live();
      TransitFits(m, brk, blk, nodes, bp);
      PutTags(bp, size, true);
      RetagConsistent(m, mem[..], heads[..], brk, blk, nodes, stamp, bp, true);
      AllocSettled(blk, nodes.Keys, bp);
      blk := blk[bp := Block(size, true)];
      r := bp;
      GainedOne(c, Live(), bp, bp + 1, bp);
    }

    method PlaceRight(bp: int, remain: int, asize: int) returns (r: int)
      requires Ok()
      requires InTransit(blk, nodes.Keys, bp) && remain + asize == blk[bp].size
      requires 16 <= remain && 16 <= asize && Multiple8(remain)
      modifies mem, heads, this`blk, this`nodes, this`stamp
      ensures Valid() && r == bp + remain && r in blk && blk[r] == Block(asize, true)
      ensures Gained(old(Live()), Live(), r)
    {
      hide Settled, Word, Tiling, Tagged, Linked, Stored, Aligned, Merged;
      ghost var blk0, listed0, c := blk, nodes.Keys, Live();
      Split(bp, remain, false, true);
      r := bp + remain;
      assert blk[bp] == Block(remain, false) && blk[r] == Block(asize, true);
      hide Cut;
      CutLive(mem[..], brk, blk0, bp, remain, false, c, Live());
      InsertFreeblk(bp);
      PlaceSettled(brk, blk0, listed0, bp, remain, false);
    }

    method PlaceLeft(bp: int, asize: int) returns (r: int)
      requires Ok()
      requires InTransit(blk, nodes.Keys, bp) && 16 <= asize <= blk[bp].size - 16 && Multiple8(asize)
      modifies mem, heads, this`blk, this`nodes, this`stamp
      ensures Valid() && r == bp && r in blk && blk[r] == Block(asize, true)
      ensures Gained(old(Live()), Live(), r)
    {
      hide Settled, Word, Tiling, Tagged, Linked, Stored;
      ghost var blk0, listed0, c := blk, nodes.Keys, Live();
      Split(bp, asize, true, false);
      r := bp;
      CutLive(mem[..], brk, blk0, bp, asize, true, c, Live());
      InsertFreeblk(bp + asize);
      PlaceSettled(brk, blk0, listed0, bp, asize, true);
    }

    /** mm_malloc */
    method Malloc(size: nat) returns (r: int)
      requires Valid() && size <= MAX_REQUEST && Honest(brk, Chunk(size), mem.Length)
      modifies this, mem, heads
      ensures Valid() && old(brk) <= brk
      ensures r == 0 <==> size == 0 || NoRoom(old(brk), old(blk), size, mem.Length)
      ensures brk == if size == 0 then old(brk) else BreakAfterMalloc(old(brk), old(blk), size, mem.Length)
      ensures r == 0 ==> Live() == old(Live()) && blk == old(blk) && brk == old(brk)
      ensures r != 0 ==> Gained(old(Live()), Live(), r) && Align(size) <= |Live()[r]|
    {
      hide Contents, Word, Tiling, Tagged, Linked, Stored, Merged;
      if size == 0 {
        return 0;
      }
      var asize := Align(size) + DSIZE;
      Multiples(8, Align(size));
      var bp := FindFit(asize);
      if bp == 0 {
        ghost var brk0, blk0 := brk, blk;
        bp := ExtendHeap(Max(asize, CHUNKSIZE));
        if bp == 0 {
          return 0;
        }
        ExtendedLast(brk0, blk0, brk, blk, Chunk(size), bp);
      }
      r := Place(bp, asize);
      LiveAt(mem[..], brk, blk, r);
    }

    /** Clear the allocated bit of a live block: the PUTs of mm_free. */
    method MarkFree(ptr: int)
      requires Valid()
      requires ptr in Live()
      modifies mem, this`blk
      ensures Ok()
      ensures ptr in blk && PROLOGUE < ptr && ptr !in nodes && !blk[ptr].alloc && 16 <= blk[ptr].size
      ensures SettledBut(blk, nodes.Keys, ptr)
      ensures Live() == old(Live()) - {ptr}
    {
      hide SettledBut, Word, Tiling, Linked, Stored, AllocOf;
      ghost var m, c := mem[..], Live();
      ReadBlock(m, brk, blk, ptr);
      LivePlaced(m, brk, blk, nodes, ptr);
      var size := GetSize(ptr);
      PutTags(ptr, size, false);
      RetagConsistent(m, mem[..], heads[..], brk, blk, nodes, stamp, ptr, false);
      FreeSettled(brk, blk, nodes.Keys, ptr);
      blk := blk[ptr := Block(size, false)];
      LostOne(c, Live(), ptr);
    }

    /** mm_free */
    method Free(ptr: int)
      requires Valid()
      requires ptr == 0 || ptr in Live()
      modifies mem, heads, this`blk, this`nodes, this`stamp
      ensures Valid()
      ensures Live() == old(Live()) - {ptr}
    {
      if ptr == 0 {
        assert 0 !in Live() by { Bounds(brk, blk); }
        return;
      }
      MarkFree(ptr);
      ghost var e;
      var bp;
      bp, e := Coalesce(ptr);
    }

    /** memcpy between two regions that do not overlap. */
    method Memcpy(dst: int, src: int, n: int)
      requires 0 <= n && 0 <= src <= mem.Length - n && 0 <= dst <= mem.Length - n
      requires src + n <= dst || dst + n <= src
      modifies mem
      ensures SameOutside(old(mem[..]), mem[..], dst, dst + n)
      ensures mem[..][dst..dst + n] == old(mem[..])[src..src + n]
    {
      ghost var m := mem[..];
      for i := 0 to n
        invariant SameOutside(m, mem[..], dst, dst + i)
        invariant mem[..][dst..dst + i] == m[src..src + i]
      {
        assert mem[..][src + i] == m[src + i];
        mem[dst + i] := mem[src + i];
        assert mem[..][dst..dst + i + 1] == m[src..src + i] + [m[src + i]];
      }
    }

    /** The PUTs of the shrinking case of mm_realloc. */
    method CutTail(ptr: int, newsize: int)
      requires Valid()
      requires ptr in Live() && Multiple8(newsize) && 16 <= newsize <= blk[ptr].size - 8
      requires 16 <= blk[ptr].size - newsize || NextFree(blk, ptr)
      modifies mem, this`blk
      ensures Ok()
      ensures var tail := ptr + newsize;
        && tail in blk && PROLOGUE < tail && tail !in nodes && !blk[tail].alloc
        && SettledBut(blk, nodes.Keys, tail) && (16 <= blk[tail].size || NextFree(blk, tail))
      ensures Resized(old(Live()), Live(), ptr, ptr, newsize - 8)
    {
      hide Contents, Word, SizeOf, AllocOf, Settled, Tiling;
      ghost var m, blk0 := mem[..], blk;
      LiveAt(m, brk, blk, ptr);
      LivePlaced(m, brk, blk, nodes, ptr);
      LiveNext(m, brk, blk, ptr);
      ShrinkSettled(brk, blk, nodes.Keys, ptr, newsize);
      Split(ptr, newsize, true, false);
      ResizedBlock(m, mem[..], brk, blk0, blk, ptr, ptr + blk0[ptr].size, newsize - 8);
    }

    /** The shrinking case of mm_realloc: cut the tail off and free it. */
    method ShrinkInPlace(ptr: int, newsize: int)
      requires Valid()
      requires ptr in Live() && Multiple8(newsize) && 16 <= newsize <= blk[ptr].size - 8
      requires 16 <= blk[ptr].size - newsize || NextFree(blk, ptr)
      modifies mem, heads, this`blk, this`nodes, this`stamp
      ensures Valid()
      ensures Resized(old(Live()), Live(), ptr, ptr, newsize - 8)
    {
      hide Consistent, Settled, Contents;
      CutTail(ptr, newsize);
      ghost var e;
      var bp;
      bp, e := Coalesce(ptr + newsize);
    }

    /** The growing cases of mm_realloc when the free block to the right has enough room. */
    method GrowInPlace(ptr: int, newsize: int)
      requires Valid()
      requires ptr in Live() && Multiple8(newsize) && blk[ptr].size < newsize && 16 <= newsize && NextFree(blk, ptr)
      requires newsize <= blk[ptr].size + blk[ptr + blk[ptr].size].size
      modifies mem, heads, this`blk, this`nodes, this`stamp
      ensures Valid()
      ensures Resized(old(Live()), Live(), ptr, ptr, newsize - 8)
    {
      hide Word, SizeOf, AllocOf, Contents;
      var oldsize := GetSize(ptr);
      var next := NextBlkp(ptr);
      ghost var t, listed := GrowBounds(mem[..], heads[..], brk, blk, nodes, stamp, ptr, newsize, next);
      var remainsize := GetSize(next);
      var total := oldsize + remainsize;
      assert total == t;
      RemoveFreeblk(next);
      assert nodes.Keys == listed;
      if total - newsize < 16 {
        TakeAll(ptr, next, newsize, total);
      } else {
        TakePart(ptr, next, newsize, total);
      }
    }

    method TakeAll(ptr: int, next: int, ghost newsize: int, total: int)
      requires Ok()
      requires Absorbing(blk, nodes.Keys, ptr, next, total) && Multiple8(total) && newsize <= total
      modifies mem, this`blk
      ensures Valid()
      ensures Resized(old(Live()), Live(), ptr, ptr, newsize - 8)
    {
      hide Contents, Tiling, Linked, Aligned;
      ghost var m, blk0, e := mem[..], blk, ptr + total;
      AbsorbSpan(m, heads[..], brk, blk, nodes, stamp, ptr, next, e);
      PutTags(ptr, total, true);
      MergeConsistent(m, mem[..], heads[..], brk, blk, nodes, stamp, ptr, e, true);
      AbsorbSettled(brk, blk, nodes.Keys, ptr, next, e);
      blk := Merged(blk, ptr, e, true);
      ResizedBlock(m, mem[..], brk, blk0, blk, ptr, e, newsize - 8);
    }

    method TakePart(ptr: int, next: int, newsize: int, total: int)
      requires Ok()
      requires Absorbing(blk, nodes.Keys, ptr, next, total)
      requires Multiple8(newsize) && Multiple8(total - newsize)
      requires blk[ptr].size < newsize <= total - 16 && 16 <= newsize
      modifies mem, heads, this`blk, this`nodes, this`stamp
      ensures Valid()
      ensures Resized(old(Live()), Live(), ptr, ptr, newsize - 8)
    {
      ghost var blk0, listed0, e := blk, nodes.Keys, ptr + total;
      AbsorbSpan(mem[..], heads[..], brk, blk, nodes, stamp, ptr, next, e);
      var tail := TakeCut(ptr, next, newsize, total, e);
      InsertFreeblk(tail);
      TakeSettled(brk, blk0, listed0, ptr, next, e, newsize);
    }

    method TakeCut(ptr: int, next: int, newsize: int, total: int, ghost e: int) returns (tail: int)
      requires Ok()
      requires Absorbing(blk, nodes.Keys, ptr, next, total) && e == ptr + total
      requires Multiple8(newsize) && Multiple8(total - newsize)
      requires blk[ptr].size < newsize <= total - 16 && 16 <= newsize
      requires (e == brk || e in blk) && e <= brk && forall x :: x in nodes ==> !(ptr <= x < e)
      requires forall x :: ptr < x < e && x != next ==> x !in blk
      modifies mem, this`blk
      ensures Ok()
      ensures blk == Cut(Merged(old(blk), ptr, e, true), ptr, newsize, true, false)
      ensures tail == ptr + newsize && tail in blk && tail !in nodes && PROLOGUE < tail
      ensures !blk[tail].alloc && 16 <= blk[tail].size
      ensures Resized(old(Live()), Live(), ptr, ptr, newsize - 8)
    {
      ghost var m, blk0 := mem[..], blk;
      tail := TakeTags(ptr, next, newsize, total, e);
      ResizedBlock(m, mem[..], brk, blk0, blk, ptr, e, newsize - 8);
    }

    method TakeTags(ptr: int, next: int, newsize: int, total: int, ghost e: int) returns (tail: int)
      requires Ok()
      requires Absorbing(blk, nodes.Keys, ptr, next, total) && e == ptr + total
      requires Multiple8(newsize) && Multiple8(total - newsize)
      requires blk[ptr].size < newsize <= total - 16 && 16 <= newsize
      requires (e == brk || e in blk) && e <= brk && forall x :: x in nodes ==> !(ptr <= x < e)
      modifies mem, this`blk
      ensures Ok()
      ensures blk == Cut(Merged(old(blk), ptr, e, true), ptr, newsize, true, false)
      ensures ptr in blk && blk[ptr] == Block(newsize, true)
      ensures tail == ptr + newsize && tail in blk && tail !in nodes
      ensures !blk[tail].alloc && blk[tail].size == total - newsize
      ensures forall x :: ptr < x < e && x in blk ==> x == tail
      ensures SameLive(old(Live()), Live(), ptr, e)
      ensures forall i :: ptr <= i < ptr + newsize - 8 && i < mem.Length ==> mem[..][i] == old(mem[..])[i]
    {
      ghost var m := mem[..];
      PutTwoTags(ptr, newsize, total - newsize);
      RepartitionConsistent(m, mem[..], heads[..], brk, blk, nodes, stamp, ptr, e, newsize, true, false);
      tail := ptr + newsize;
      blk := TakenAt(blk, ptr, e, newsize, tail);
    }

    /** Tags of an allocated block of `k` bytes and of a free one of `rest` bytes after it. */
    method PutTwoTags(bp: int, k: int, rest: int)
      requires PROLOGUE < bp && 8 <= k && Multiple8(k) && 8 <= rest && Multiple8(rest)
      requires bp + k + rest <= mem.Length < 0x8000_0000
      modifies mem
      ensures SameOutside(old(mem[..]), mem[..], bp - 4, bp + k + rest - 4)
      ensures Word(mem[..], bp - 4) == Word(mem[..], bp + k - 8) == Tag(Block(k, true))
      ensures Word(mem[..], bp + k - 4) == Word(mem[..], bp + k + rest - 8) == Tag(Block(rest, false))
      ensures forall i :: bp <= i < bp + k - 8 ==> mem[..][i] == old(mem[..])[i]
    {
      PutTags(bp, k, true);
      PutTags(bp + k, rest, false);
    }

    /** The copy of mm_realloc, from one live payload into another. */
    method CopyPayload(dst: int, src: int, n: int)
      requires Valid()
      requires dst in Live() && src in Live() && dst != src
      requires n == |Live()[src]| <= |Live()[dst]|
      modifies mem
      ensures Valid()
      ensures src in Live() && Live() == old(Live())[dst := old(Live())[src] + old(Live())[dst][n..]]
    {
      hide Settled, Contents, Word, Tagged, Linked;
      ghost var m, c := mem[..], Live();
      LiveBounds(m, brk, blk, dst);
      LiveBounds(m, brk, blk, src);
      LiveApart(m, brk, blk, dst, src);
      Memcpy(dst, src, n);
      WriteConsistent(m, mem[..], heads[..], brk, blk, nodes, stamp, dst, dst, dst + n);
      Overwritten(m, mem[..], brk, blk, dst, n, c[src]);
    }

    /** The last case of mm_realloc: a new block, the old payload copied into it, the old block freed. */
    method Move(ptr: int, size: nat) returns (r: int)
      requires Valid() && 0 < size <= MAX_REQUEST && Honest(brk, Chunk(size), mem.Length)
      requires ptr in Live() && |Live()[ptr]| <= Align(size)
      modifies this, mem, heads
      ensures Valid() && old(brk) <= brk
      ensures r == 0 <==> NoRoom(old(brk), old(blk), size, mem.Length)
      ensures brk == BreakAfterMalloc(old(brk), old(blk), size, mem.Length)
      ensures r == 0 ==> Live() == old(Live()) && blk == old(blk) && brk == old(brk)
      ensures r != 0 ==> r != ptr && Resized(old(Live()), Live(), ptr, r, size)
    {
      hide Settled, Contents, Word, Tiling, Tagged, Linked, Aligned, AllocOf, SizeOf, NextFree;
      ReadLive(mem[..], brk, blk, nodes, ptr);
      var oldsize := GetSize(ptr);
      r := Malloc(size);
      if r == 0 {
        return;
      }
      ghost var c1 := Live();
      CopyPayload(r, ptr, oldsize - DSIZE);
      MoveResized(old(Live()), c1, Live(), ptr, r, size);
      Free(ptr);
    }

    /** mm_realloc */
    method Realloc(ptr: int, size: nat) returns (r: int)
      requires Valid() && size <= MAX_REQUEST && Honest(brk, Chunk(size), mem.Length)
      requires ptr == 0 || ptr in Live()
      requires ptr in blk && AtEnd(brk, blk, ptr) ==> Honest(brk, Extension(blk, ptr, BlockSize(size)), mem.Length)
      modifies this, mem, heads
      ensures Valid() && old(brk) <= brk
      ensures ptr == 0 && r != 0 ==> Gained(old(Live()), Live(), r) && size <= |Live()[r]|
      ensures ptr != 0 && size == 0 ==> r == 0 && Live() == old(Live()) - {ptr}
      ensures ptr != 0 && r != 0 ==> Resized(old(Live()), Live(), ptr, r, size)
      ensures r == 0 && (ptr == 0 || size != 0) ==> Live() == old(Live())
      ensures r == 0 && size != 0 ==> blk == old(blk) && brk == old(brk)
      ensures r == 0 && size != 0 ==> NoRoom(brk, blk, size, mem.Length)
      ensures size == 0 ==> r == 0 && brk == old(brk)
      ensures ptr == 0 && size != 0 ==> (r == 0 <==> NoRoom(old(brk), old(blk), size, mem.Length))
      ensures ptr == 0 && size != 0 ==> brk == BreakAfterMalloc(old(brk), old(blk), size, mem.Length)
      ensures ptr != 0 ==> ptr in old(blk)
      ensures ptr != 0 && size != 0 ==> (r == ptr <==> Stays(old(brk), old(blk), ptr, BlockSize(size), mem.Length))
      ensures ptr != 0 && size != 0 ==> (r == 0 <==> r != ptr && NoRoom(old(brk), old(blk), size, mem.Length))
      ensures ptr != 0 && size != 0 ==> brk == BreakAfterRealloc(old(brk), old(blk), ptr, size, mem.Length)
    {
      assert ptr != 0 ==> ptr in blk by { if ptr != 0 { LiveAt(mem[..], brk, blk, ptr); } }
      if ptr == 0 {
        r := Malloc(size);
      } else if size == 0 {
        Free(ptr);
        r := 0;
      } else {
        r := Resize(ptr, size);
      }
    }

    /** mm_realloc of a live block to a non-zero size. */
    method Resize(ptr: int, size: nat) returns (r: int)
      requires Valid() && 0 < size <= MAX_REQUEST && Honest(brk, Chunk(size), mem.Length)
      requires ptr in Live()
      requires ptr in blk && AtEnd(brk, blk, ptr) ==> Honest(brk, Extension(blk, ptr, BlockSize(size)), mem.Length)
      modifies this, mem, heads
      ensures Valid() && old(brk) <= brk
      ensures r != 0 ==> Resized(old(Live()), Live(), ptr, r, size)
      ensures r == 0 ==> Live() == old(Live()) && blk == old(blk) && brk == old(brk)
      ensures ptr in old(blk) && (r == ptr <==> Stays(old(brk), old(blk), ptr, BlockSize(size), mem.Length))
      ensures r == 0 <==> r != ptr && NoRoom(old(brk), old(blk), size, mem.Length)
      ensures brk == BreakAfterRealloc(old(brk), old(blk), ptr, size, mem.Length)
    {
      hide Contents, Word, SizeOf, AllocOf, NoRoom, AtEnd;
      ReadLive(mem[..], brk, blk, nodes, ptr);
      Multiples(8, Align(size));
      var newsize := Align(size) + DSIZE;
      var oldsize := GetSize(ptr);
      var next := NextBlkp(ptr);
      var remainsize := if GetAlloc(next) then 0 else GetSize(next);
      if newsize == oldsize {
        ResizedSame(Live(), ptr, size);
        r := ptr;
      } else if newsize < oldsize {
        if oldsize - newsize + remainsize < DSIZE * 2 {
          ResizedSame(Live(), ptr, size);
        } else {
          ShrinkRoom(brk, blk, nodes.Keys, ptr, newsize);
          ShrinkInPlace(ptr, newsize);
        }
        r := ptr;
      } else {
        r := Grow(ptr, size, newsize, oldsize, next, remainsize);
      }
    }

    /** The growing half of mm_realloc. */
    method Grow(ptr: int, size: nat, newsize: int, oldsize: int, next: int, remain: int) returns (r: int)
      requires Valid() && 0 < size <= MAX_REQUEST && newsize == Align(size) + DSIZE && Multiple8(newsize)
      requires Honest(brk, Chunk(size), mem.Length)
      requires ptr in blk && AtEnd(brk, blk, ptr) ==> Honest(brk, Extension(blk, ptr, newsize), mem.Length)
      requires ptr in blk && ptr in Live() && oldsize == blk[ptr].size < newsize && 16 <= newsize
      requires next == ptr + oldsize && remain == FreeAfter(blk, ptr)
      modifies this, mem, heads
      ensures Valid() && old(brk) <= brk
      ensures r != 0 ==> Resized(old(Live()), Live(), ptr, r, size)
      ensures r == 0 ==> Live() == old(Live()) && blk == old(blk) && brk == old(brk)
      ensures r == ptr <==> Stays(old(brk), old(blk), ptr, newsize, mem.Length)
      ensures r == 0 <==> r != ptr && NoRoom(old(brk), old(blk), size, mem.Length)
      ensures brk == BreakAfterRealloc(old(brk), old(blk), ptr, size, mem.Length)
    {
      hide Word, SizeOf, AllocOf, Contents, NoRoom, AtEnd, Extends, BreakAfterMalloc;
      ghost var c := Live();
      LiveAt(mem[..], brk, blk, ptr);
      var remainsize := FindRoom(ptr, newsize - oldsize, next, remain);
      assert Live() == c;
      if remainsize >= newsize - oldsize {
        GrowInPlace(ptr, newsize);
        ResizedEnough(c, Live(), ptr, ptr, newsize - 8, size);
        r := ptr;
      } else {
        LiveAt(mem[..], brk, blk, ptr);
        r := Move(ptr, size);
        assert r != 0 ==> Resized(c, Live(), ptr, r, size);
      }
    }

    /** The room behind a live block for `more` bytes, after extending the heap if that can help. */
    method FindRoom(ptr: int, more: nat, next: int, remain: int) returns (remainsize: int)
      requires Valid()
      requires ptr in blk && ptr in Live() && next == ptr + blk[ptr].size && remain == FreeAfter(blk, ptr)
      requires AtEnd(brk, blk, ptr) ==> Honest(brk, Extension(blk, ptr, blk[ptr].size + more), mem.Length)
      modifies this, mem, heads
      ensures Valid() && old(brk) <= brk && Live() == old(Live())
      ensures ptr in blk && blk[ptr] == old(blk)[ptr]
      ensures remainsize >= more > 0 ==> NextFree(blk, ptr) && blk[ptr + blk[ptr].size].size == remainsize
      ensures remainsize < more ==> brk == old(brk) && blk == old(blk)
      ensures remainsize >= more <==> Stays(old(brk), old(blk), ptr, blk[ptr].size + more, mem.Length)
      ensures brk == old(brk) + if Extends(old(brk), old(blk), ptr, blk[ptr].size + more, mem.Length)
                                then Extension(old(blk), ptr, blk[ptr].size + more) else 0
    {
      hide Contents, Word, SizeOf, AllocOf;
      remainsize := remain;
      LiveAt(mem[..], brk, blk, ptr);
      ReadAhead(mem[..], brk, blk, ptr, next);
      var canExtend := (remainsize != 0 && GetSize(NextBlkp(next)) == 0) || GetSize(next) == 0;
      assert canExtend <==> AtEnd(brk, blk, ptr);
      if remainsize < more && canExtend {
        remainsize := ExtendFor(ptr, more, next, remainsize);
      }
    }

    /** The size of the block after a live one, 0 at the end of the heap. */
    method SizeAfter(ptr: int) returns (s: int)
      requires Valid() && ptr in Live()
      ensures var next := ptr + blk[ptr].size; s == if next in blk then blk[next].size else 0
      ensures brk !in blk
    {
      hide Word, Stored, Linked;
      ReadLive(mem[..], brk, blk, nodes, ptr);
      s := GetSize(NextBlkp(ptr));
    }

    /** The heap extension of mm_realloc, for a block that is last or has only a free block after it. */
    method ExtendFor(ptr: int, more: nat, next: int, remain: int) returns (remainsize: int)
      requires Valid() && ptr in blk && ptr in Live()
      requires next == ptr + blk[ptr].size && remain == FreeAfter(blk, ptr) && AtEnd(brk, blk, ptr)
      requires 0 <= remain < more && Honest(brk, Align(Max(more - remain, REALLOCCHUNKSIZE)), mem.Length)
      modifies this, mem, heads
      ensures Valid() && old(brk) <= brk && Live() == old(Live())
      ensures ptr in blk && blk[ptr] == old(blk)[ptr] && remainsize == FreeAfter(blk, ptr)
      ensures var k := Align(Max(more - remain, REALLOCCHUNKSIZE));
        if old(brk) + k <= mem.Length then brk == old(brk) + k && remainsize >= more && NextFree(blk, ptr)
        else brk == old(brk) && blk == old(blk)
    {
      hide Consistent, Contents, Settled;
      var bp := ExtendBehind(ptr, Max(more - remain, REALLOCCHUNKSIZE), next);
      remainsize := SizeAfter(ptr);
    }

    method ExtendBehind(ptr: int, size: nat, next: int) returns (bp: int)
      requires Valid() && ptr in blk && ptr in Live()
      requires next == ptr + blk[ptr].size && AtEnd(brk, blk, ptr)
      requires 16 <= size && Honest(brk, Align(size), mem.Length)
      modifies this, mem, heads
      ensures Valid() && old(brk) <= brk && Live() == old(Live())
      ensures ptr in blk && blk[ptr] == old(blk)[ptr]
      ensures bp == 0 <==> old(brk) + Align(size) > mem.Length
      ensures bp == 0 ==> brk == old(brk) && blk == old(blk)
      ensures bp != 0 ==> brk == old(brk) + Align(size)
      ensures bp != 0 ==> NextFree(blk, ptr) && FreeAfter(blk, ptr) == Align(size) + old(FreeAfter(blk, ptr))
    {
      hide Word, SizeOf, AllocOf, FreeAfter, NextFree, AtEnd, Tagged, Linked;
      ghost var brk0, blk0 := brk, blk;
      LiveAt(mem[..], brk, blk, ptr);
      bp := ExtendHeap(size);
      if bp != 0 {
        ExtendedNext(brk0, blk0, brk, blk, Align(size), bp, ptr, next);
      }
    }

    /** mem_init: storage for `capacity` bytes, and an empty heap in it. */
    constructor (capacity: nat)
      requires capacity < 0x8000_0000
      ensures fresh(mem) && fresh(heads)
      ensures brk == 0 && mem.Length == capacity && heads.Length == LISTMAX && (mem as object) != heads
    {
      mem := new byte[capacity];
      heads := new int[LISTMAX];
      brk := 0;
      blk, nodes, stamp := map[], map[], 0;
    }

    /** mm_init: empty lists, prologue and epilogue, and a first free block; -1 if that does not fit. */
    method Init() returns (r: int)
      requires brk == 0 && mem.Length < 0x8000_0000 && heads.Length == LISTMAX && (mem as object) != heads
      modifies this, mem, heads
      ensures r == (if mem.Length < 144 + INITCHUNKSIZE then -1 else 0)
      ensures r == 0 ==> Valid() && Live() == map[] && brk == 144 + INITCHUNKSIZE
    {
      hide Contents, Word, Linked;
      var start := MemSbrk(Align(LISTMAX * 8 - WSIZE) + 4 * WSIZE);
      if start == -1 {
        return -1;
      }
      for i := 0 to LISTMAX
        invariant forall j :: 0 <= j < i ==> heads[j] == 0
        modifies heads
      {
        heads[i] := 0;
      }
      var listp := start + Align(LISTMAX * 8 - WSIZE) + 2 * WSIZE;
      Put(listp - WSIZE, 9);
      Put(listp + GetSize(listp) - DSIZE, 9);
      Put(NextBlkp(listp) - WSIZE, 1);
      blk, nodes, stamp := map[PROLOGUE := Block(8, true)], map[], 0;
      assert listp == PROLOGUE && brk == 144;
      EmptyHeap(mem[..], heads[..]);
      assert nodes.Keys == {};
      var bp := ExtendHeap(INITCHUNKSIZE);
      r := if bp == 0 then -1 else 0;
    }
  }
}
