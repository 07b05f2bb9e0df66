/** mm_check, the allocator's own consistency checker, and why it can never complain.

    The walk of the implicit block list and the walks of the free lists are tied to the abstract heap:
    the first meets every block once, in address order; the second meets every free block once. */
module HeapCheck {
  import opened Bytes
  import opened HeapLayout
  import opened Buckets
  import opened FreeLists
  import opened HeapState
  import opened Allocator

  /** The blocks met by following the sizes in the headers from `a` up to the epilogue. */
  ghost function HeapWalk(m: seq<byte>, brk: int, blk: map<int, Block>, a: int): (s: seq<int>)
    requires Tiling(brk, blk) && Aligned(brk, blk) && Tagged(m, brk, blk)
    requires a in blk || a == brk
    decreases brk - a
  {
    HeapEnd(m, brk, blk, a);
    var size := SizeOf(Word(m, a - 4));
    if size == 0 then []
    else
      ReadBlock(m, brk, blk, a);
      assert Placed(brk, blk, a);
      [a] + HeapWalk(m, brk, blk, a + size)
  }

  /** No block starts strictly inside another. */
  lemma AtOrBeyond(brk: int, blk: map<int, Block>, a: int, x: int)
    requires Tiling(brk, blk) && a in blk && x in blk
    ensures a <= x <==> x == a || a + blk[a].size <= x
  {
    Bounds(brk, blk);
  }

  lemma Prepend(a: int, t: seq<int>)
    requires forall i, j :: 0 <= i < j < |t| ==> t[i] < t[j]
    requires forall x :: x in t ==> a < x
    ensures var s := [a] + t;
      && (forall x :: x in s <==> x == a || x in t)
      && (forall i, j :: 0 <= i < j < |s| ==> s[i] < s[j])
  {
    var s := [a] + t;
    forall i, j | 0 <= i < j < |s|
      ensures s[i] < s[j]
    {
      if i == 0 {
        assert t[j - 1] in t;
      } else {
        assert t[i - 1] < t[j - 1];
      }
    }
  }

  /** The walk meets exactly the blocks from `a` on, each once, in address order. */
  lemma {:induction false} WalkMeetsAll(m: seq<byte>, brk: int, blk: map<int, Block>, a: int)
    requires Tiling(brk, blk) && Aligned(brk, blk) && Tagged(m, brk, blk)
    requires a in blk || a == brk
    ensures var s := HeapWalk(m, brk, blk, a);
      && (forall x :: x in s <==> x in blk && a <= x)
      && (forall i, j :: 0 <= i < j < |s| ==> s[i] < s[j])
    decreases brk - a
  {
    hide Tagged, Aligned, Word, SizeOf, Disjoint;
    HeapEnd(m, brk, blk, a);
    Bounds(brk, blk);
    if a in blk {
      ReadBlock(m, brk, blk, a);
      assert Placed(brk, blk, a);
      var b := a + blk[a].size;
      WalkMeetsAll(m, brk, blk, b);
      var t := HeapWalk(m, brk, blk, b);
      assert HeapWalk(m, brk, blk, a) == [a] + t;
      hide HeapWalk, Tagged, Aligned, Word;
      forall x | x in blk
        ensures a <= x <==> x == a || b <= x
      {
        AtOrBeyond(brk, blk, a, x);
      }
      Prepend(a, t);
    }
  }

  /** Every block between prologue and epilogue is met, and every free one is in the list of its size. */
  lemma TwoViews(m: seq<byte>, heads: seq<int>, brk: int, blk: map<int, Block>, nodes: map<int, Node>, stamp: int,
                 k: int)
    requires Consistent(m, heads, brk, blk, nodes, stamp) && Settled(blk, nodes.Keys)
    requires 0 <= k < LISTMAX
    ensures heads[k] == 0 || heads[k] in nodes
    ensures forall x :: x in HeapWalk(m, brk, blk, PROLOGUE) <==> x in blk
    ensures var c := Chain(nodes, heads, stamp, heads[k]);
      && (forall x :: x in c <==> x in blk && !blk[x].alloc && ListFor(blk[x].size) == k)
      && (forall i, j :: 0 <= i < j < |c| ==> c[i] != c[j])
  {
    WalkMeetsAll(m, brk, blk, PROLOGUE);
    Bounds(brk, blk);
    ListComplete(nodes, heads, stamp, k);
    var c := Chain(nodes, heads, stamp, heads[k]);
    forall x ensures x in c <==> x in blk && !blk[x].alloc && ListFor(blk[x].size) == k {
      if x in nodes {
        assert NodeStored(m, blk, nodes, x);
      }
    }
  }

  /** The free blocks below `a`. */
  ghost function FreeBelow(blk: map<int, Block>, a: int): set<int> {
    set x | x in blk && !blk[x].alloc && x < a
  }

  /** The listed blocks not yet met by a walk that has come to `bp` in list `i`. */
  ghost function Unmet(nodes: map<int, Node>, heads: seq<int>, stamp: int, i: int, bp: int): set<int>
    requires Linked(nodes, heads, stamp) && (bp == 0 || bp in nodes)
  {
    set x | x in nodes && (nodes[x].list > i || (nodes[x].list == i && x in Chain(nodes, heads, stamp, bp)))
  }

  /** mm_check on a heap between calls: each check as the source runs it. */
  method MmCheck(h: Heap) returns (ok: bool)
    requires h.Valid()
    ensures ok
  {
    ok := ListedAreFree(h);
    if ok {
      ok := NoAdjacentFree(h);
    }
    if ok {
      ok := AllFreeListed(h);
    }
    if ok {
      ok := LinksMatch(h);
    }
  }

  /** check 1: every block in a free list is marked free. */
  method ListedAreFree(h: Heap) returns (ok: bool)
    requires h.Valid()
    ensures ok
  {
    for i := 0 to LISTMAX {
      var bp := h.heads[i];
      assert HeadOk(h.nodes, h.heads[..], i);
      while bp != 0
        invariant bp == 0 || bp in h.nodes
        decreases if bp != 0 && bp in h.nodes then h.nodes[bp].rank + 1 else 0
      {
        ReadNode(h.mem[..], h.heads[..], h.brk, h.blk, h.nodes, h.stamp, bp);
        ReadBlock(h.mem[..], h.brk, h.blk, bp);
        if h.GetAlloc(bp) {
          return false;
        }
        bp := h.Follow(bp + WSIZE);
      }
    }
    ok := true;
  }

  /** check 2: no two neighbouring blocks are free. */
  method NoAdjacentFree(h: Heap) returns (ok: bool)
    requires h.Valid()
    ensures ok
  {
    hide Word, Linked;
    var bp := PROLOGUE;
    HeapEnd(h.mem[..], h.brk, h.blk, bp);
    while h.GetSize(bp) > 0
      invariant bp in h.blk || bp == h.brk
      invariant bp == h.brk <==> h.GetSize(bp) == 0
      decreases h.brk - bp
    {
      ReadBlock(h.mem[..], h.brk, h.blk, bp);
      ReadNext(h.mem[..], h.brk, h.blk, bp);
      assert Placed(h.brk, h.blk, bp);
      assert Coalesced(h.blk, bp);
      if !h.GetAlloc(bp) && !h.GetAlloc(h.NextBlkp(bp)) {
        return false;
      }
      bp := h.NextBlkp(bp);
      HeapEnd(h.mem[..], h.brk, h.blk, bp);
    }
    ok := true;
  }

  /** The size field read at an address of the walk is 0 exactly at the epilogue. */
  lemma HeapEnd(m: seq<byte>, brk: int, blk: map<int, Block>, a: int)
    requires Tiling(brk, blk) && Aligned(brk, blk) && Tagged(m, brk, blk)
    requires a in blk || a == brk
    ensures SizeOf(Word(m, a - 4)) == 0 <==> a == brk
    ensures a == brk ==> a !in blk
    ensures a in blk ==> 8 <= blk[a].size && a + blk[a].size <= brk
  {
    Bounds(brk, blk);
    if a in blk {
      ReadBlock(m, brk, blk, a);
    }
  }

  /** check 3: as many free blocks in the heap as entries in the lists. */
  method AllFreeListed(h: Heap) returns (ok: bool)
    requires h.Valid()
    ensures ok
  {
    var count := CountFree(h);
    count := CountListed(h, count);
    ok := count == 0;
  }

  method CountFree(h: Heap) returns (count: int)
    requires h.Valid()
    ensures count == |h.nodes.Keys|
  {
    hide Word, SizeOf, AllocOf, Contents, Linked, Settled;
    count := 0;
    var bp := PROLOGUE;
    HeapEnd(h.mem[..], h.brk, h.blk, bp);
    NoneBelow(h.brk, h.blk);
    while h.GetSize(bp) > 0
      invariant bp in h.blk || bp == h.brk
      invariant bp == h.brk <==> h.GetSize(bp) == 0
      invariant count == |FreeBelow(h.blk, bp)|
      decreases h.brk - bp
    {
      ReadBlock(h.mem[..], h.brk, h.blk, bp);
      ReadNext(h.mem[..], h.brk, h.blk, bp);
      NextBelow(h.brk, h.blk, bp, bp + h.blk[bp].size);
      if !h.GetAlloc(bp) {
        count := count + 1;
      }
      bp := h.NextBlkp(bp);
      HeapEnd(h.mem[..], h.brk, h.blk, bp);
    }
    AllBelow(h.mem[..], h.brk, h.blk, h.nodes);
  }

  lemma NoneBelow(brk: int, blk: map<int, Block>)
    requires Tiling(brk, blk)
    ensures FreeBelow(blk, PROLOGUE) == {}
  {
    Bounds(brk, blk);
  }

  lemma NextBelow(brk: int, blk: map<int, Block>, a: int, b: int)
    requires Tiling(brk, blk) && a in blk && b == a + blk[a].size
    ensures FreeBelow(blk, b) == FreeBelow(blk, a) + (if blk[a].alloc then {} else {a})
    ensures |FreeBelow(blk, b)| == |FreeBelow(blk, a)| + if blk[a].alloc then 0 else 1
  {
    Bounds(brk, blk);
    assert FreeBelow(blk, b) == FreeBelow(blk, a) + (if blk[a].alloc then {} else {a});
  }

  lemma AllBelow(m: seq<byte>, brk: int, blk: map<int, Block>, nodes: map<int, Node>)
    requires Tiling(brk, blk) && Stored(m, blk, nodes) && Settled(blk, nodes.Keys)
    ensures FreeBelow(blk, brk) == nodes.Keys
  {
    Bounds(brk, blk);
    forall x | x in nodes ensures x in FreeBelow(blk, brk) {
      assert NodeStored(m, blk, nodes, x);
    }
  }

  method CountListed(h: Heap, start: int) returns (count: int)
    requires h.Valid()
    ensures count == start - |h.nodes.Keys|
  {
    hide Word, SizeOf, AllocOf, Contents;
    count := start;
    UnmetStart(h.nodes, h.heads[..], h.stamp);
    for i := 0 to LISTMAX
      invariant count == start - |h.nodes.Keys| + |Unmet(h.nodes, h.heads[..], h.stamp, i - 1, 0)|
    {
      var bp := h.heads[i];
      UnmetList(h.nodes, h.heads[..], h.stamp, i);
      while bp != 0
        invariant bp == 0 || (bp in h.nodes && h.nodes[bp].list == i)
        invariant count == start - |h.nodes.Keys| + |Unmet(h.nodes, h.heads[..], h.stamp, i, bp)|
        decreases if bp != 0 && bp in h.nodes then h.nodes[bp].rank + 1 else 0
      {
        ReadNode(h.mem[..], h.heads[..], h.brk, h.blk, h.nodes, h.stamp, bp);
        UnmetStep(h.nodes, h.heads[..], h.stamp, i, bp, h.nodes[bp].next);
        count := count - 1;
        bp := h.Follow(bp + WSIZE);
      }
    }
    UnmetEnd(h.nodes, h.heads[..], h.stamp);
  }

  lemma UnmetStart(nodes: map<int, Node>, heads: seq<int>, stamp: int)
    requires Linked(nodes, heads, stamp)
    ensures Unmet(nodes, heads, stamp, -1, 0) == nodes.Keys
  {
    forall x | x in nodes ensures x in Unmet(nodes, heads, stamp, -1, 0) {
      assert NodeOk(nodes, heads, stamp, x);
    }
  }

  lemma UnmetEnd(nodes: map<int, Node>, heads: seq<int>, stamp: int)
    requires Linked(nodes, heads, stamp)
    ensures Unmet(nodes, heads, stamp, LISTMAX - 1, 0) == {}
  {
    forall x | x in nodes ensures nodes[x].list < LISTMAX {
      assert NodeOk(nodes, heads, stamp, x);
    }
    assert Chain(nodes, heads, stamp, 0) == [];
  }

  lemma UnmetList(nodes: map<int, Node>, heads: seq<int>, stamp: int, i: int)
    requires Linked(nodes, heads, stamp) && 0 <= i < LISTMAX
    ensures heads[i] == 0 || (heads[i] in nodes && nodes[heads[i]].list == i)
    ensures Unmet(nodes, heads, stamp, i, heads[i]) == Unmet(nodes, heads, stamp, i - 1, 0)
  {
    ListComplete(nodes, heads, stamp, i);
    assert HeadOk(nodes, heads, i);
    assert Chain(nodes, heads, stamp, 0) == [];
    var u, v := Unmet(nodes, heads, stamp, i, heads[i]), Unmet(nodes, heads, stamp, i - 1, 0);
    forall x ensures x in u <==> x in v {
      if x in nodes && nodes[x].list == i {
        assert x in Chain(nodes, heads, stamp, heads[i]);
      }
    }
  }

  lemma UnmetStep(nodes: map<int, Node>, heads: seq<int>, stamp: int, i: int, bp: int, next: int)
    requires Linked(nodes, heads, stamp) && bp != 0 && bp in nodes && nodes[bp].list == i
    requires next == nodes[bp].next && (next == 0 || next in nodes)
    ensures |Unmet(nodes, heads, stamp, i, bp)| == |Unmet(nodes, heads, stamp, i, next)| + 1
  {
    assert NodeOk(nodes, heads, stamp, bp);
    assert Chain(nodes, heads, stamp, bp) == [bp] + Chain(nodes, heads, stamp, next);
    if next != 0 {
      ChainOrdered(nodes, heads, stamp, next);
    }
    assert bp !in Chain(nodes, heads, stamp, next);
    assert Unmet(nodes, heads, stamp, i, bp) == Unmet(nodes, heads, stamp, i, next) + {bp};
  }

  /** check 4: heads have no predecessor, and neighbours in a list point at each other. */
  method LinksMatch(h: Heap) returns (ok: bool)
    requires h.Valid()
    ensures ok
  {
    hide SizeOf, AllocOf, Contents;
    for i := 0 to LISTMAX {
      var bp := h.heads[i];
      assert HeadOk(h.nodes, h.heads[..], i);
      if bp != 0 {
        ReadLinks(h.mem[..], h.heads[..], h.brk, h.blk, h.nodes, h.stamp, bp);
        if h.Get(bp) != 0 {
          return false;
        }
      }
      while bp != 0
        invariant bp == 0 || bp in h.nodes
        decreases if bp != 0 && bp in h.nodes then h.nodes[bp].rank + 1 else 0
      {
        ReadLinks(h.mem[..], h.heads[..], h.brk, h.blk, h.nodes, h.stamp, bp);
        if h.Get(bp + WSIZE) != 0 {
          var next := h.Follow(bp + WSIZE);
          if h.Get(next) != OffsetOf(bp) || h.Get(bp + WSIZE) != OffsetOf(next) {
            return false;
          }
        }
        bp := h.Follow(bp + WSIZE);
      }
    }
    ok := true;
  }

  lemma ReadLinks(m: seq<byte>, heads: seq<int>, brk: int, blk: map<int, Block>, nodes: map<int, Node>, stamp: int,
                  a: int)
    requires Consistent(m, heads, brk, blk, nodes, stamp) && a in nodes
    ensures nodes[a].prev == 0 ==> Word(m, a) == 0
    ensures var s := Word(m, a + 4);
      s != 0 ==> var b := PROLOGUE + s;
        b in nodes && nodes[b].rank < nodes[a].rank && Word(m, b) == OffsetOf(a) && OffsetOf(b) == s
    ensures 0 <= nodes[a].rank
  {
    assert NodeStored(m, blk, nodes, a);
    assert NodeOk(nodes, heads, stamp, a);
    if nodes[a].next != 0 {
      assert NodeStored(m, blk, nodes, nodes[a].next);
    }
  }
}
