/** The heap as a whole: the tiling, its boundary tags and the free lists describe the same memory.

    Every step the allocator takes is one of: rewrite the tags around some whole blocks, extend the
    heap, or relink free blocks. Each is proved here, on memory values, to keep the heap consistent
    and to leave the payloads of live blocks alone. */
module HeapState {
  import opened Bytes
  import opened HeapLayout
  import opened Buckets
  import opened FreeLists

  /** GET_OFFSET of an address, with NULL stored as 0. */
  function OffsetOf(a: int): int { if a == 0 then 0 else a - PROLOGUE }

  /** The list that should hold a block of size `s`. */
  function ListFor(s: int): (k: nat)
    ensures k < LISTMAX
  {
    if s >= 0 then BucketOf(s) else 0
  }

  /** Listed block `a` is a free block of a suitable size, and holds its links in its first two words. */
  ghost predicate NodeStored(m: seq<byte>, blk: map<int, Block>, nodes: map<int, Node>, a: int)
    requires a in nodes
  {
    && PROLOGUE < a && a in blk && !blk[a].alloc && 16 <= blk[a].size
    && nodes[a].list == ListFor(blk[a].size)
    && Word(m, a) == OffsetOf(nodes[a].prev)
    && Word(m, a + 4) == OffsetOf(nodes[a].next)
  }

  ghost predicate Stored(m: seq<byte>, blk: map<int, Block>, nodes: map<int, Node>) {
    forall a {:trigger NodeStored(m, blk, nodes, a)} :: a in nodes ==> NodeStored(m, blk, nodes, a)
  }

  /** What holds between any two steps of the allocator. */
  ghost predicate Consistent(m: seq<byte>, heads: seq<int>, brk: int, blk: map<int, Block>, nodes: map<int, Node>,
                             stamp: int) {
    && |m| < 0x8000_0000 && brk <= |m|
    && Tiling(brk, blk)
    && Aligned(brk, blk)
    && Tagged(m, brk, blk)
    && Linked(nodes, heads, stamp)
    && Stored(m, blk, nodes)
  }

  /** Block `a` and the block after it are not both free. */
  ghost predicate Coalesced(blk: map<int, Block>, a: int)
    requires a in blk
  {
    var b := a + blk[a].size;
    b in blk && !blk[a].alloc ==> blk[b].alloc
  }

  /** What holds between calls, except around block `b`: free blocks are listed, coalesced and at least
      16 bytes long. */
  ghost predicate SettledBut(blk: map<int, Block>, listed: set<int>, b: int) {
    && (forall a :: a in blk && a != b && !blk[a].alloc ==> a in listed)
    && (forall a :: a in blk && a != b && a != PROLOGUE ==> 16 <= blk[a].size)
    && (forall a {:trigger Coalesced(blk, a)} :: a in blk && a != b && a + blk[a].size != b ==> Coalesced(blk, a))
  }

  ghost predicate Settled(blk: map<int, Block>, listed: set<int>) {
    && (forall a :: a in blk && !blk[a].alloc ==> a in listed)
    && (forall a :: a in blk && a != PROLOGUE ==> 16 <= blk[a].size)
    && (forall a {:trigger Coalesced(blk, a)} :: a in blk ==> Coalesced(blk, a))
  }

  /** The live blocks, with the bytes of their payloads: all that a client may rely on. */
  ghost function Contents(m: seq<byte>, blk: map<int, Block>): map<int, seq<byte>> {
    map a | a in blk && blk[a].alloc && a != PROLOGUE :: Payload(m, a, blk[a].size)
  }

  ghost function Payload(m: seq<byte>, a: int, size: int): seq<byte> {
    if 0 <= a <= a + size - 8 <= |m| then m[a..a + size - 8] else []
  }

  /** The two views agree on all blocks outside [lo, hi). */
  ghost predicate SameLive(c: map<int, seq<byte>>, d: map<int, seq<byte>>, lo: int, hi: int) {
    forall x :: !(lo <= x < hi) ==> (x in c <==> x in d) && (x in c ==> c[x] == d[x])
  }

  lemma PayloadSame(m: seq<byte>, n: seq<byte>, lo: int, hi: int, a: int, size: int)
    requires SameOutside(m, n, lo, hi)
    requires a + size - 8 <= lo || hi <= a
    ensures Payload(n, a, size) == Payload(m, a, size)
  {
    if 0 <= a <= a + size - 8 <= |m| {
      assert n[a..a + size - 8] == m[a..a + size - 8];
    }
  }

  /** Changes between the header of `a` and the header of `e` leave payloads outside [a, e) alone. */
  lemma LiveOutside(m: seq<byte>, n: seq<byte>, brk: int, blk: map<int, Block>, blk': map<int, Block>, a: int, e: int)
    requires Tiling(brk, blk)
    requires (a in blk || a == brk) && a < e && (e >= brk || e in blk)
    requires SameOutside(m, n, a - 4, e - 4)
    requires forall x :: !(a <= x < e) ==> (x in blk <==> x in blk') && (x in blk ==> blk'[x] == blk[x])
    ensures SameLive(Contents(m, blk), Contents(n, blk'), a, e)
  {
    var c, d := Contents(m, blk), Contents(n, blk');
    forall x | !(a <= x < e) ensures (x in c <==> x in d) && (x in c ==> c[x] == d[x]) {
      if x in c {
        assert Placed(brk, blk, x);
        PayloadSame(m, n, a - 4, e - 4, x, blk[x].size);
      }
    }
  }

  /** Free blocks outside [a, e) keep their links when only [a - 4, e - 4) changes. */
  lemma StoredOutside(m: seq<byte>, n: seq<byte>, brk: int, blk: map<int, Block>, blk': map<int, Block>,
                      nodes: map<int, Node>, a: int, e: int)
    requires Tiling(brk, blk) && Stored(m, blk, nodes)
    requires (a in blk || a == brk) && a < e && (e >= brk || e in blk)
    requires SameOutside(m, n, a - 4, e - 4)
    requires forall x :: x in nodes ==> !(a <= x < e)
    requires forall x :: !(a <= x < e) && x in blk ==> x in blk' && blk'[x] == blk[x]
    ensures Stored(n, blk', nodes)
  {
    forall x {:trigger NodeStored(n, blk', nodes, x)} | x in nodes ensures NodeStored(n, blk', nodes, x) {
      assert NodeStored(m, blk, nodes, x);
      assert Placed(brk, blk, x);
      WordSame(m, n, a - 4, e - 4, x);
      WordSame(m, n, a - 4, e - 4, x + 4);
    }
  }

  lemma MergeConsistent(m: seq<byte>, n: seq<byte>, heads: seq<int>, brk: int, blk: map<int, Block>,
                        nodes: map<int, Node>, stamp: int, a: int, e: int, alloc: bool)
    requires Consistent(m, heads, brk, blk, nodes, stamp)
    requires a in blk && PROLOGUE < a < e && (e == brk || e in blk)
    requires forall x :: x in nodes ==> !(a <= x < e)
    requires SameOutside(m, n, a - 4, e - 4)
    requires Word(n, a - 4) == Word(n, e - 8) == Tag(Block(e - a, alloc))
    ensures Consistent(n, heads, brk, Merged(blk, a, e, alloc), nodes, stamp)
    ensures SameLive(Contents(m, blk), Contents(n, Merged(blk, a, e, alloc)), a, e)
  {
    MergeTiling(brk, blk, a, e, alloc);
    MergeTags(m, n, brk, blk, a, e, alloc);
    StoredOutside(m, n, brk, blk, Merged(blk, a, e, alloc), nodes, a, e);
    LiveOutside(m, n, brk, blk, Merged(blk, a, e, alloc), a, e);
    MergeAligned(brk, blk, a, e, alloc);
  }

  /** Merging free blocks into one free block changes no live payload. */
  lemma MergeFree(m: seq<byte>, n: seq<byte>, heads: seq<int>, brk: int, blk: map<int, Block>,
                  nodes: map<int, Node>, stamp: int, a: int, e: int)
    requires Consistent(m, heads, brk, blk, nodes, stamp)
    requires a in blk && PROLOGUE < a < e && (e == brk || e in blk)
    requires forall x :: x in nodes ==> !(a <= x < e)
    requires forall x :: x in blk && a <= x < e ==> !blk[x].alloc
    requires SameOutside(m, n, a - 4, e - 4)
    requires Word(n, a - 4) == Word(n, e - 8) == Tag(Block(e - a, false))
    ensures Consistent(n, heads, brk, Merged(blk, a, e, false), nodes, stamp)
    ensures Contents(n, Merged(blk, a, e, false)) == Contents(m, blk)
  {
    MergeConsistent(m, n, heads, brk, blk, nodes, stamp, a, e, false);
    assert Contents(m, blk) == Contents(n, Merged(blk, a, e, false));
  }

  lemma CutConsistent(m: seq<byte>, n: seq<byte>, heads: seq<int>, brk: int, blk: map<int, Block>,
                      nodes: map<int, Node>, stamp: int, a: int, k: int, left: bool, right: bool)
    requires Consistent(m, heads, brk, blk, nodes, stamp)
    requires a in blk && a !in nodes && PROLOGUE < a && 8 <= k <= blk[a].size - 8 && Multiple8(k)
    requires var e := a + blk[a].size;
      && SameOutside(m, n, a - 4, e - 4)
      && Word(n, a - 4) == Word(n, a + k - 8) == Tag(Block(k, left))
      && Word(n, a + k - 4) == Word(n, e - 8) == Tag(Block(e - a - k, right))
    ensures Consistent(n, heads, brk, Cut(blk, a, k, left, right), nodes, stamp)
    ensures SameLive(Contents(m, blk), Contents(n, Cut(blk, a, k, left, right)), a, a + blk[a].size)
    ensures a + k !in nodes
  {
    hide Tagged, Linked, Word, SameOutside, Stored, Aligned, SameLive, Contents, Tag, Multiple8, Tiling, Cut;
    CutTiling(brk, blk, a, k, left, right);
    CutTags(m, n, brk, blk, a, k, left, right);
    CutStays(m, n, brk, blk, nodes, a, k, left, right);
    CutAligned(brk, blk, a, k, left, right);
    SameLength(m, n, a - 4, a + blk[a].size - 4);
    assert Consistent(n, heads, brk, Cut(blk, a, k, left, right), nodes, stamp);
  }

  /** A cut changes neither the stored links nor a payload elsewhere. */
  lemma CutStays(m: seq<byte>, n: seq<byte>, brk: int, blk: map<int, Block>, nodes: map<int, Node>, a: int, k: int,
                 left: bool, right: bool)
    requires Tiling(brk, blk) && Stored(m, blk, nodes)
    requires a in blk && a !in nodes && PROLOGUE < a && 8 <= k <= blk[a].size - 8
    requires SameOutside(m, n, a - 4, a + blk[a].size - 4)
    ensures Stored(n, Cut(blk, a, k, left, right), nodes) && a + k !in nodes
    ensures SameLive(Contents(m, blk), Contents(n, Cut(blk, a, k, left, right)), a, a + blk[a].size)
  {
    hide Tagged, Linked, Word, SameOutside, Stored, Aligned, SameLive, Contents, Tag;
    var e := a + blk[a].size;
    assert e == brk || e in blk by {
      assert Placed(brk, blk, a);
    }
    NothingInside(m, brk, blk, nodes, a);
    StoredOutside(m, n, brk, blk, Cut(blk, a, k, left, right), nodes, a, e);
    LiveOutside(m, n, brk, blk, Cut(blk, a, k, left, right), a, e);
  }

  lemma SameLength(m: seq<byte>, n: seq<byte>, lo: int, hi: int)
    requires SameOutside(m, n, lo, hi)
    ensures |n| == |m|
  {
  }

  lemma GrowConsistent(m: seq<byte>, n: seq<byte>, heads: seq<int>, brk: int, blk: map<int, Block>,
                       nodes: map<int, Node>, stamp: int, k: int)
    requires Consistent(m, heads, brk, blk, nodes, stamp)
    requires 8 <= k && Multiple8(k) && brk + k <= |m|
    requires SameOutside(m, n, brk - 4, brk + k)
    requires Word(n, brk - 4) == Word(n, brk + k - 8) == Tag(Block(k, false))
    requires Word(n, brk + k - 4) == 1
    ensures brk !in blk && brk !in nodes
    ensures Consistent(n, heads, brk + k, blk[brk := Block(k, false)], nodes, stamp)
    ensures Contents(n, blk[brk := Block(k, false)]) == Contents(m, blk)
  {
    var blk' := blk[brk := Block(k, false)];
    NothingAbove(m, brk, blk, nodes);
    GrowTiling(brk, blk, k);
    GrowTags(m, n, brk, blk, k);
    GrowKeeps(m, n, brk, blk, nodes, k);
    GrowAligned(brk, blk, k);
  }

  lemma GrowKeeps(m: seq<byte>, n: seq<byte>, brk: int, blk: map<int, Block>, nodes: map<int, Node>, k: int)
    requires Tiling(brk, blk) && Stored(m, blk, nodes) && 8 <= k
    requires SameOutside(m, n, brk - 4, brk + k)
    ensures Stored(n, blk[brk := Block(k, false)], nodes)
    ensures Contents(n, blk[brk := Block(k, false)]) == Contents(m, blk)
  {
    var blk' := blk[brk := Block(k, false)];
    var e := brk + k + 4;
    NothingAbove(m, brk, blk, nodes);
    StoredOutside(m, n, brk, blk, blk', nodes, brk, e);
    LiveOutside(m, n, brk, blk, blk', brk, e);
    assert Contents(m, blk) == Contents(n, blk');
  }

  lemma NothingAbove(m: seq<byte>, brk: int, blk: map<int, Block>, nodes: map<int, Node>)
    requires Tiling(brk, blk) && Stored(m, blk, nodes)
    ensures forall x :: brk <= x ==> x !in blk
    ensures forall x :: x in nodes ==> x in blk && x < brk
  {
    Bounds(brk, blk);
    forall x | x in nodes ensures x in blk {
      assert NodeStored(m, blk, nodes, x);
    }
  }

  lemma NothingInside(m: seq<byte>, brk: int, blk: map<int, Block>, nodes: map<int, Node>, a: int)
    requires Tiling(brk, blk) && Stored(m, blk, nodes) && a in blk
    ensures forall x :: a < x < a + blk[a].size ==> x !in blk && x !in nodes
  {
    NothingAbove(m, brk, blk, nodes);
  }

  lemma Multiples(x: int, y: int)
    requires Multiple8(x) && Multiple8(y)
    ensures Multiple8(y - x) && Multiple8(x + y)
  {
  }

  lemma MergeAligned(brk: int, blk: map<int, Block>, a: int, e: int, alloc: bool)
    requires Aligned(brk, blk) && a in blk && (e == brk || e in blk)
    ensures Aligned(brk, Merged(blk, a, e, alloc))
  {
    var blk' := Merged(blk, a, e, alloc);
    forall x {:trigger BlockAligned(blk', x)} | x in blk' ensures BlockAligned(blk', x) {
      assert BlockAligned(blk, a);
      if x != a {
        assert BlockAligned(blk, x);
      } else {
        assert e in blk ==> BlockAligned(blk, e);
        Multiples(a, e);
      }
    }
  }

  lemma CutAligned(brk: int, blk: map<int, Block>, a: int, k: int, left: bool, right: bool)
    requires Aligned(brk, blk) && a in blk && Multiple8(k)
    ensures Aligned(brk, Cut(blk, a, k, left, right))
  {
    var blk' := Cut(blk, a, k, left, right);
    forall x {:trigger BlockAligned(blk', x)} | x in blk' ensures BlockAligned(blk', x) {
      assert BlockAligned(blk, a);
      if x != a && x != a + k {
        assert BlockAligned(blk, x);
      } else {
        Multiples(a, k);
        Multiples(k, blk[a].size);
      }
    }
  }

  lemma GrowAligned(brk: int, blk: map<int, Block>, k: int)
    requires Aligned(brk, blk) && Multiple8(k)
    ensures Aligned(brk + k, blk[brk := Block(k, false)])
  {
    var blk' := blk[brk := Block(k, false)];
    Multiples(brk, k);
    forall x {:trigger BlockAligned(blk', x)} | x in blk' ensures BlockAligned(blk', x) {
      if x != brk {
        assert BlockAligned(blk, x);
      }
    }
  }

  /** Only the link words of free blocks `u` and `v` differ. */
  ghost predicate OnlyLinks(m: seq<byte>, n: seq<byte>, u: int, v: int) {
    |n| == |m| && forall i :: 0 <= i < |m| && !(u <= i < u + 8) && !(v <= i < v + 8) ==> n[i] == m[i]
  }

  lemma LinkWordSame(m: seq<byte>, n: seq<byte>, u: int, v: int, p: int)
    requires OnlyLinks(m, n, u, v)
    requires (p + 4 <= u || u + 8 <= p) && (p + 4 <= v || v + 8 <= p)
    ensures Word(n, p) == Word(m, p)
  {
    if 0 <= p <= |m| - 4 {
      assert n[p..p + 4] == m[p..p + 4];
    }
  }

  /** Relinking free blocks disturbs neither tags (here) nor live payloads (next). */
  lemma RelinkTags(m: seq<byte>, n: seq<byte>, brk: int, blk: map<int, Block>, u: int, v: int)
    requires Tiling(brk, blk) && Tagged(m, brk, blk)
    requires u in blk && !blk[u].alloc && 16 <= blk[u].size
    requires v in blk && !blk[v].alloc && 16 <= blk[v].size
    requires OnlyLinks(m, n, u, v)
    ensures Tagged(n, brk, blk)
  {
    assert Placed(brk, blk, u) && Placed(brk, blk, v);
    forall x {:trigger TagOk(n, blk, x)} | x in blk ensures TagOk(n, blk, x) {
      assert TagOk(m, blk, x);
      assert Placed(brk, blk, x);
      LinkWordSame(m, n, u, v, x - 4);
      LinkWordSame(m, n, u, v, x + blk[x].size - 8);
    }
    LinkWordSame(m, n, u, v, brk - 4);
  }

  lemma RelinkContents(m: seq<byte>, n: seq<byte>, brk: int, blk: map<int, Block>, u: int, v: int)
    requires Tiling(brk, blk)
    requires u in blk && !blk[u].alloc && 16 <= blk[u].size
    requires v in blk && !blk[v].alloc && 16 <= blk[v].size
    requires OnlyLinks(m, n, u, v)
    ensures Contents(n, blk) == Contents(m, blk)
  {
    forall x {:trigger Payload(n, x, blk[x].size)} | x in blk && blk[x].alloc
      ensures Payload(n, x, blk[x].size) == Payload(m, x, blk[x].size)
    {
      RelinkPayload(m, n, brk, blk, u, v, x);
    }
  }

  lemma RelinkPayload(m: seq<byte>, n: seq<byte>, brk: int, blk: map<int, Block>, u: int, v: int, x: int)
    requires Tiling(brk, blk)
    requires u in blk && !blk[u].alloc && 16 <= blk[u].size
    requires v in blk && !blk[v].alloc && 16 <= blk[v].size
    requires OnlyLinks(m, n, u, v)
    requires x in blk && blk[x].alloc
    ensures Payload(n, x, blk[x].size) == Payload(m, x, blk[x].size)
  {
    var y := x + blk[x].size - 8;
    assert (u < x ==> u + 8 <= x) && (x < u ==> y <= u);
    assert (v < x ==> v + 8 <= x) && (x < v ==> y <= v);
    if 0 <= x <= y <= |m| {
      assert m[x..y] == n[x..y];
    }
  }

  // ------------------------------------------------------------------------------------------
  // Reading tags

  lemma ReadBlock(m: seq<byte>, brk: int, blk: map<int, Block>, a: int)
    requires Tiling(brk, blk) && Aligned(brk, blk) && Tagged(m, brk, blk) && a in blk
    ensures SizeOf(Word(m, a - 4)) == blk[a].size && (AllocOf(Word(m, a - 4)) <==> blk[a].alloc)
    ensures SizeOf(Word(m, a + blk[a].size - 8)) == blk[a].size
    ensures (AllocOf(Word(m, a + blk[a].size - 8)) <==> blk[a].alloc)
  {
    assert Placed(brk, blk, a);
    assert BlockAligned(blk, a);
    assert TagOk(m, blk, a);
    TagParts(blk[a]);
  }

  /** PREV_BLKP finds the block that ends at `b`. */
  lemma ReadPrev(m: seq<byte>, brk: int, blk: map<int, Block>, b: int) returns (p: int)
    requires Tiling(brk, blk) && Aligned(brk, blk) && Tagged(m, brk, blk)
    requires (b in blk && b != PROLOGUE) || b == brk
    ensures p == b - SizeOf(Word(m, b - 8))
    ensures p in blk && p + blk[p].size == b && p < b
    ensures forall q :: q in blk && q + blk[q].size == b ==> q == p
    ensures SizeOf(Word(m, p - 4)) == blk[p].size && (AllocOf(Word(m, p - 4)) <==> blk[p].alloc)
  {
    if b != brk {
      assert Placed(brk, blk, b);
    }
    p :| p in blk && p + blk[p].size == b;
    ReadBlock(m, brk, blk, p);
    Bounds(brk, blk);
  }

  /** NEXT_BLKP finds the next block, or the epilogue, whose size is 0. */
  lemma ReadNext(m: seq<byte>, brk: int, blk: map<int, Block>, a: int)
    requires Tiling(brk, blk) && Aligned(brk, blk) && Tagged(m, brk, blk) && a in blk
    ensures var e := a + blk[a].size;
      && (e == brk || e in blk)
      && SizeOf(Word(m, e - 4)) == (if e in blk then blk[e].size else 0)
      && (AllocOf(Word(m, e - 4)) <==> (e in blk ==> blk[e].alloc))
    ensures brk !in blk
    ensures a + blk[a].size in blk ==> blk[a + blk[a].size].size > 0
  {
    assert Placed(brk, blk, a);
    var e := a + blk[a].size;
    Bounds(brk, blk);
    if e in blk {
      ReadBlock(m, brk, blk, e);
    }
  }

  // ------------------------------------------------------------------------------------------
  // Pushing and unlinking free blocks in memory

  /** The head of a list and a block about to join it do not overlap. */
  lemma HeadApart(m: seq<byte>, heads: seq<int>, brk: int, blk: map<int, Block>, nodes: map<int, Node>, stamp: int,
                  b: int, k: int)
    requires Consistent(m, heads, brk, blk, nodes, stamp)
    requires b in blk && b !in nodes && 16 <= blk[b].size && 0 <= k < LISTMAX
    ensures b <= |m| - 8
    ensures var h := heads[k]; h == 0 || (PROLOGUE < h <= |m| - 8 && (h + 8 <= b || b + 8 <= h))
  {
    var h := heads[k];
    assert HeadOk(nodes, heads, k);
    assert Placed(brk, blk, b);
    if h != 0 {
      assert NodeStored(m, blk, nodes, h);
      assert Placed(brk, blk, h);
    }
  }

  /** A listed block and its neighbours in the list do not overlap, and its links lead to them. */
  lemma NeighboursApart(m: seq<byte>, heads: seq<int>, brk: int, blk: map<int, Block>, nodes: map<int, Node>,
                        stamp: int, b: int)
    requires Consistent(m, heads, brk, blk, nodes, stamp)
    requires b in nodes
    ensures b in blk && !blk[b].alloc && 16 <= blk[b].size && PROLOGUE < b <= |m| - 8
    ensures nodes[b].list == ListFor(blk[b].size)
    ensures var p, s := nodes[b].prev, nodes[b].next;
      && Word(m, b) == OffsetOf(p) && Word(m, b + 4) == OffsetOf(s)
      && (p == 0 || (PROLOGUE < p <= |m| - 8 && (p + 8 <= b || b + 8 <= p)))
      && (s == 0 || (PROLOGUE < s <= |m| - 8 && (s + 8 <= b || b + 8 <= s)))
      && (p != 0 && s != 0 ==> s + 8 <= p || p + 8 <= s)
  {
    var p, s := nodes[b].prev, nodes[b].next;
    Neighbours(m, heads, blk, nodes, stamp, b);
    assert NodeStored(m, blk, nodes, b);
    Bounds(brk, blk);
  }

  lemma InsertConsistent(m: seq<byte>, n: seq<byte>, heads: seq<int>, brk: int, blk: map<int, Block>,
                         nodes: map<int, Node>, stamp: int, b: int)
    requires Consistent(m, heads, brk, blk, nodes, stamp)
    requires b in blk && b !in nodes && !blk[b].alloc && 16 <= blk[b].size && PROLOGUE < b
    requires var h := heads[ListFor(blk[b].size)];
      && OnlyLinks(m, n, b, if h == 0 then b else h)
      && Word(n, b) == 0 && Word(n, b + 4) == OffsetOf(h)
      && (h != 0 ==> Word(n, h) == OffsetOf(b) && Word(n, h + 4) == Word(m, h + 4))
    ensures var k := ListFor(blk[b].size);
      Consistent(n, heads[k := b], brk, blk, Pushed(nodes, heads[k], stamp, b, k), stamp + 1)
    ensures Contents(n, blk) == Contents(m, blk)
  {
    var k := ListFor(blk[b].size);
    var h := heads[k];
    assert HeadOk(nodes, heads, k);
    if h != 0 {
      assert NodeStored(m, blk, nodes, h);
    }
    var nodes' := Pushed(nodes, h, stamp, b, k);
    PushLinked(nodes, heads, stamp, b, k);
    RelinkTags(m, n, brk, blk, b, if h == 0 then b else h);
    RelinkContents(m, n, brk, blk, b, if h == 0 then b else h);
    forall x {:trigger NodeStored(n, blk, nodes', x)} | x in nodes' ensures NodeStored(n, blk, nodes', x) {
      if x != b {
        assert NodeStored(m, blk, nodes, x);
        if x != h {
          LinksElsewhere(m, n, brk, blk, b, if h == 0 then b else h, x);
        }
      }
    }
  }

  lemma LinksElsewhere(m: seq<byte>, n: seq<byte>, brk: int, blk: map<int, Block>, u: int, v: int, x: int)
    requires Tiling(brk, blk)
    requires u in blk && 16 <= blk[u].size
    requires v in blk && 16 <= blk[v].size
    requires x in blk && 16 <= blk[x].size && x != u && x != v
    requires OnlyLinks(m, n, u, v)
    ensures Word(n, x) == Word(m, x) && Word(n, x + 4) == Word(m, x + 4)
  {
    LinkWordSame(m, n, u, v, x);
    LinkWordSame(m, n, u, v, x + 4);
  }

  /** `n` is `m` with the neighbours of listed block `b` linked to each other. */
  ghost predicate Relinked(m: seq<byte>, n: seq<byte>, nodes: map<int, Node>, b: int, u: int, v: int)
    requires b in nodes
  {
    var p, s := nodes[b].prev, nodes[b].next;
    && u == (if p == 0 then b else p) && v == (if s == 0 then b else s)
    && OnlyLinks(m, n, u, v)
    && (p != 0 ==> Word(n, p) == Word(m, p) && Word(n, p + 4) == OffsetOf(s))
    && (s != 0 ==> Word(n, s) == OffsetOf(p) && Word(n, s + 4) == Word(m, s + 4))
  }

  lemma RemoveConsistent(m: seq<byte>, n: seq<byte>, heads: seq<int>, brk: int, blk: map<int, Block>,
                         nodes: map<int, Node>, stamp: int, b: int, u: int, v: int)
    requires Consistent(m, heads, brk, blk, nodes, stamp)
    requires b in nodes && Relinked(m, n, nodes, b, u, v)
    ensures 0 <= nodes[b].list < |heads|
    ensures Consistent(n, HeadsWithout(nodes, heads, b), brk, blk, Unlinked(nodes, b), stamp)
    ensures Contents(n, blk) == Contents(m, blk)
  {
    UnlinkLinked(nodes, heads, stamp, b);
    Neighbours(m, heads, blk, nodes, stamp, b);
    RelinkTags(m, n, brk, blk, u, v);
    RelinkContents(m, n, brk, blk, u, v);
    var nodes' := Unlinked(nodes, b);
    forall x {:trigger NodeStored(n, blk, nodes', x)} | x in nodes' ensures NodeStored(n, blk, nodes', x) {
      RemoveStored(m, n, heads, brk, blk, nodes, stamp, b, u, v, x);
    }
  }

  lemma Neighbours(m: seq<byte>, heads: seq<int>, blk: map<int, Block>, nodes: map<int, Node>, stamp: int, b: int)
    requires Linked(nodes, heads, stamp) && Stored(m, blk, nodes) && b in nodes
    ensures b != 0 && 0 <= nodes[b].list < LISTMAX
    ensures b in blk && !blk[b].alloc && 16 <= blk[b].size && PROLOGUE < b
    ensures var p, s := nodes[b].prev, nodes[b].next;
      && (p != 0 ==> p in nodes && PROLOGUE < p && p in blk && !blk[p].alloc && 16 <= blk[p].size)
      && (s != 0 ==> s in nodes && PROLOGUE < s && s in blk && !blk[s].alloc && 16 <= blk[s].size)
      && p != b && s != b && (p == s ==> p == 0)
  {
    var p, s := nodes[b].prev, nodes[b].next;
    assert NodeOk(nodes, heads, stamp, b);
    assert NodeStored(m, blk, nodes, b);
    if p != 0 {
      assert NodeStored(m, blk, nodes, p);
    }
    if s != 0 {
      assert NodeStored(m, blk, nodes, s);
    }
  }

  lemma UnlinkedAt(nodes: map<int, Node>, b: int, x: int)
    requires b in nodes && x in nodes && x != b
    requires nodes[b].prev == nodes[b].next ==> nodes[b].prev == 0
    requires 0 !in nodes
    ensures x in Unlinked(nodes, b)
    ensures var y := Unlinked(nodes, b)[x];
      && y.list == nodes[x].list
      && y.prev == (if x == nodes[b].next then nodes[b].prev else nodes[x].prev)
      && y.next == (if x == nodes[b].prev then nodes[b].next else nodes[x].next)
  {
  }

  /** The link words of a block other than `b`, after its neighbours were linked to each other. */
  lemma RelinkedWords(m: seq<byte>, n: seq<byte>, brk: int, blk: map<int, Block>, nodes: map<int, Node>,
                      b: int, u: int, v: int, x: int)
    requires Tiling(brk, blk) && b in nodes && Relinked(m, n, nodes, b, u, v)
    requires u in blk && 16 <= blk[u].size && v in blk && 16 <= blk[v].size
    requires x in blk && 16 <= blk[x].size && x != b && x != 0
    requires nodes[b].prev == nodes[b].next ==> nodes[b].prev == 0
    ensures Word(n, x) == if x == nodes[b].next then OffsetOf(nodes[b].prev) else Word(m, x)
    ensures Word(n, x + 4) == if x == nodes[b].prev then OffsetOf(nodes[b].next) else Word(m, x + 4)
  {
    if x != u && x != v {
      LinksElsewhere(m, n, brk, blk, u, v, x);
    }
    hide Word, Tiling, OnlyLinks, OffsetOf;
  }

  lemma RemoveStored(m: seq<byte>, n: seq<byte>, heads: seq<int>, brk: int, blk: map<int, Block>,
                     nodes: map<int, Node>, stamp: int, b: int, u: int, v: int, x: int)
    requires Tiling(brk, blk) && Linked(nodes, heads, stamp) && Stored(m, blk, nodes)
    requires b in nodes && Relinked(m, n, nodes, b, u, v)
    requires x in nodes && x != b
    ensures NodeStored(n, blk, Unlinked(nodes, b), x)
  {
    assert 0 in nodes ==> NodeOk(nodes, heads, stamp, 0);
    assert NodeStored(m, blk, nodes, x);
    Neighbours(m, heads, blk, nodes, stamp, b);
    UnlinkedAt(nodes, b, x);
    RelinkedWords(m, n, brk, blk, nodes, b, u, v, x);
    hide Word, Tiling, Linked, Stored, Unlinked, Relinked, ListFor;
    assert NodeStored(n, blk, Unlinked(nodes, b), x);
  }

  // ------------------------------------------------------------------------------------------
  // Coalescing

  ghost predicate NextFree(blk: map<int, Block>, b: int)
    requires b in blk
  {
    var n := b + blk[b].size;
    n in blk && !blk[n].alloc
  }

  /** The size of the free block behind `b`, 0 if there is none. */
  ghost function FreeAfter(blk: map<int, Block>, b: int): int
    requires b in blk
  {
    if NextFree(blk, b) then blk[b + blk[b].size].size else 0
  }

  /** Nothing but a free block lies between block `b` and the end of the heap. */
  ghost predicate AtEnd(brk: int, blk: map<int, Block>, b: int)
    requires b in blk
  {
    var n := b + blk[b].size;
    n == brk || (NextFree(blk, b) && n + blk[n].size == brk)
  }

  /** [lo, e) is block `b` together with its free neighbours. */
  ghost predicate Span(blk: map<int, Block>, b: int, lo: int, e: int) {
    && b in blk && lo in blk && lo <= b
    && (if lo == b then forall p :: p in blk && p + blk[p].size == b ==> blk[p].alloc
        else lo + blk[lo].size == b && !blk[lo].alloc)
    && var n := b + blk[b].size;
       e == if NextFree(blk, b) then n + blk[n].size else n
  }

  /** What lies around and inside a span, when everything but `b` is settled. */
  lemma SpanNeighbours(brk: int, blk: map<int, Block>, listed: set<int>, b: int, lo: int, e: int)
    requires Tiling(brk, blk)
    requires SettledBut(blk, listed, b) && Span(blk, b, lo, e)
    requires PROLOGUE < b
    ensures b < e && (e == brk || (e in blk && blk[e].alloc))
    ensures forall p :: p in blk && p + blk[p].size == lo ==> blk[p].alloc
    ensures PROLOGUE < lo && (lo != b ==> lo in listed)
    ensures var n := b + blk[b].size; NextFree(blk, b) ==> n in listed && PROLOGUE < n
    ensures 16 <= blk[b].size || NextFree(blk, b) ==> 16 <= e - lo
  {
    Bounds(brk, blk);
    assert Placed(brk, blk, b);
    var n := b + blk[b].size;
    if NextFree(blk, b) {
      assert Placed(brk, blk, n);
      assert Coalesced(blk, n);
    }
    forall p | p in blk && p + blk[p].size == lo ensures blk[p].alloc {
      if lo != b {
        assert Coalesced(blk, p);
      }
    }
  }

  lemma MergedAlone(brk: int, blk: map<int, Block>, b: int)
    requires Tiling(brk, blk) && b in blk && !blk[b].alloc
    ensures Merged(blk, b, b + blk[b].size, false) == blk
  {
    Bounds(brk, blk);
  }

  /** What coalesce reads from the tags around `b` determines its span. */
  lemma FindSpan(m: seq<byte>, brk: int, blk: map<int, Block>, listed: set<int>, b: int, prev: int, next: int)
    returns (lo: int, e: int)
    requires Tiling(brk, blk) && Aligned(brk, blk) && Tagged(m, brk, blk)
    requires SettledBut(blk, listed, b) && b in blk && PROLOGUE < b && !blk[b].alloc
    requires prev == b - SizeOf(Word(m, b - 8)) && next == b + SizeOf(Word(m, b - 4))
    ensures next == b + blk[b].size && prev in blk && b == prev + blk[prev].size && prev < b < next
    ensures AllocOf(Word(m, next - 4)) <==> !NextFree(blk, b)
    ensures AllocOf(Word(m, prev - 4)) <==> blk[prev].alloc
    ensures lo == if blk[prev].alloc then b else prev
    ensures e == if NextFree(blk, b) then next + blk[next].size else next
    ensures Span(blk, b, lo, e)
    ensures lo != b ==> PROLOGUE < lo && lo in listed
    ensures NextFree(blk, b) ==> next in listed && next < e
    ensures lo <= next
    ensures blk[prev].alloc && !NextFree(blk, b) ==> blk == Merged(blk, lo, e, false)
  {
    hide Word, SizeOf, AllocOf;
    var p := ReadPrev(m, brk, blk, b);
    ReadNext(m, brk, blk, b);
    ReadBlock(m, brk, blk, b);
    lo := if blk[prev].alloc then b else prev;
    e := if NextFree(blk, b) then next + blk[next].size else next;
    SpanNeighbours(brk, blk, listed, b, lo, e);
    Bounds(brk, blk);
    if blk[prev].alloc && !NextFree(blk, b) {
      MergedAlone(brk, blk, b);
    }
    hide Merged, SettledBut, Tagged, Aligned;
  }

  lemma MergedAt(blk: map<int, Block>, lo: int, e: int)
    ensures var blk' := Merged(blk, lo, e, false); lo in blk' && blk'[lo] == Block(e - lo, false)
  {
  }

  /** The merged block has allocated neighbours, so nothing is left to coalesce. */
  lemma SettleMerge(brk: int, blk: map<int, Block>, listed: set<int>, b: int, lo: int, e: int)
    requires Tiling(brk, blk)
    requires SettledBut(blk, listed, b)
    requires lo in blk && PROLOGUE < lo <= b < e && 16 <= e - lo && (e == brk || (e in blk && blk[e].alloc))
    requires forall p :: p in blk && p + blk[p].size == lo ==> blk[p].alloc
    ensures forall listed' :: (forall x :: x in listed && !(lo <= x < e) ==> x in listed') && lo in listed'
              ==> Settled(Merged(blk, lo, e, false), listed')
  {
    var blk' := Merged(blk, lo, e, false);
    forall x {:trigger Coalesced(blk', x)} | x in blk' ensures Coalesced(blk', x) {
      SettleMergeAt(brk, blk, listed, b, lo, e, x);
    }
  }

  lemma SettleMergeAt(brk: int, blk: map<int, Block>, listed: set<int>, b: int, lo: int, e: int, x: int)
    requires Tiling(brk, blk)
    requires SettledBut(blk, listed, b)
    requires lo in blk && PROLOGUE < lo <= b < e && (e == brk || (e in blk && blk[e].alloc))
    requires forall p :: p in blk && p + blk[p].size == lo ==> blk[p].alloc
    requires x in Merged(blk, lo, e, false)
    ensures Coalesced(Merged(blk, lo, e, false), x)
  {
    Bounds(brk, blk);
    if x != lo {
      var y := x + blk[x].size;
      if y != b {
        assert Coalesced(blk, x);
      } else {
        assert x < lo ==> y <= lo;
      }
    }
  }

  /** Only the header and footer words of block `a` of `size` bytes differ. */
  ghost predicate OnlyTags(m: seq<byte>, n: seq<byte>, a: int, size: int) {
    && |n| == |m|
    && forall i :: 0 <= i < |m| && !(a - 4 <= i < a) && !(a + size - 8 <= i < a + size - 4) ==> n[i] == m[i]
  }

  /** Two free blocks in transit, one right after the other. */
  ghost predicate Adjacent(blk: map<int, Block>, listed: set<int>, a: int, b: int) {
    && PROLOGUE < a && a in blk && b in blk && b == a + blk[a].size
    && !blk[a].alloc && !blk[b].alloc && a !in listed && b !in listed
  }

  /** Where two adjacent blocks lie, what their tags read, and that nothing else lies there. */
  lemma AdjacentSpan(m: seq<byte>, heads: seq<int>, brk: int, blk: map<int, Block>, nodes: map<int, Node>, stamp: int,
                     a: int, b: int)
    requires Consistent(m, heads, brk, blk, nodes, stamp)
    requires Adjacent(blk, nodes.Keys, a, b)
    ensures var e := b + blk[b].size;
      && a + 8 <= b && b + 8 <= e <= brk <= |m| < 0x8000_0000 && (e == brk || e in blk)
      && (forall x :: a <= x < e && x in blk ==> x == a || x == b)
      && (forall x :: a <= x < e ==> x !in nodes)
    ensures SizeOf(Word(m, a - 4)) == blk[a].size && SizeOf(Word(m, b - 4)) == blk[b].size
    ensures Multiple8(blk[a].size + blk[b].size)
  {
    ReadBlock(m, brk, blk, a);
    ReadBlock(m, brk, blk, b);
    assert Placed(brk, blk, a) && Placed(brk, blk, b);
    assert BlockAligned(blk, a) && BlockAligned(blk, b);
    Multiples(blk[a].size, blk[b].size);
    NothingAbove(m, brk, blk, nodes);
  }

  // ------------------------------------------------------------------------------------------
  // Retagging one block, splitting a free block, extending the heap

  /** Rewriting the tags of one unlisted block changes its allocated bit and nothing else. */
  lemma RetagConsistent(m: seq<byte>, n: seq<byte>, heads: seq<int>, brk: int, blk: map<int, Block>,
                        nodes: map<int, Node>, stamp: int, a: int, alloc: bool)
    requires Consistent(m, heads, brk, blk, nodes, stamp)
    requires a in blk && a !in nodes && PROLOGUE < a
    requires OnlyTags(m, n, a, blk[a].size)
    requires Word(n, a - 4) == Word(n, a + blk[a].size - 8) == Tag(Block(blk[a].size, alloc))
    ensures Consistent(n, heads, brk, blk[a := Block(blk[a].size, alloc)], nodes, stamp)
    ensures SameLive(Contents(m, blk), Contents(n, blk[a := Block(blk[a].size, alloc)]), a, a + 1)
    ensures Payload(n, a, blk[a].size) == Payload(m, a, blk[a].size)
  {
    hide Tagged, Multiple8, Linked, Stored, Aligned, Word, Contents, Payload, SameLive;
    var e := a + blk[a].size;
    NothingInside(m, brk, blk, nodes, a);
    assert Placed(brk, blk, a);
    var blk' := blk[a := Block(blk[a].size, alloc)];
    assert blk' == Merged(blk, a, e, alloc);
    assert e - a == blk[a].size;
    MergeConsistent(m, n, heads, brk, blk, nodes, stamp, a, e, alloc);
    RetagLive(m, n, brk, blk, a, alloc);
    RetagPayload(m, n, a, blk[a].size);
    assert Consistent(n, heads, brk, blk', nodes, stamp);
  }

  /** Inside a retagged block there is no other block, so all other payloads are the same. */
  lemma RetagLive(m: seq<byte>, n: seq<byte>, brk: int, blk: map<int, Block>, a: int, alloc: bool)
    requires Tiling(brk, blk) && a in blk
    requires SameLive(Contents(m, blk), Contents(n, blk[a := Block(blk[a].size, alloc)]), a, a + blk[a].size)
    ensures SameLive(Contents(m, blk), Contents(n, blk[a := Block(blk[a].size, alloc)]), a, a + 1)
  {
    var c, d := Contents(m, blk), Contents(n, blk[a := Block(blk[a].size, alloc)]);
    assert forall x :: a < x < a + blk[a].size ==> x !in blk;
    forall x | !(a <= x < a + 1) ensures (x in c <==> x in d) && (x in c ==> c[x] == d[x]) {
    }
  }

  lemma RetagPayload(m: seq<byte>, n: seq<byte>, a: int, size: int)
    requires OnlyTags(m, n, a, size) && 8 <= size
    ensures Payload(n, a, size) == Payload(m, a, size)
  {
    if 0 <= a <= a + size - 8 <= |m| {
      assert n[a..a + size - 8] == m[a..a + size - 8];
    }
  }

  /** Allocating one part of an unlinked free block, or all of it, leaves the heap settled. */
  lemma PlaceSettled(brk: int, blk: map<int, Block>, listed: set<int>, a: int, k: int, left: bool)
    requires Tiling(brk, blk)
    requires a in blk && PROLOGUE < a && !blk[a].alloc
    requires 16 <= k <= blk[a].size - 16
    requires Settled(blk, listed + {a})
    ensures Settled(Cut(blk, a, k, left, !left), listed + {if left then a + k else a})
  {
    var blk' := Cut(blk, a, k, left, !left);
    forall x {:trigger Coalesced(blk', x)} | x in blk' ensures Coalesced(blk', x) {
      PlaceCoalesced(brk, blk, listed, a, k, left, x);
    }
  }

  lemma PlaceCoalesced(brk: int, blk: map<int, Block>, listed: set<int>, a: int, k: int, left: bool, x: int)
    requires Tiling(brk, blk)
    requires a in blk && PROLOGUE < a && !blk[a].alloc
    requires 16 <= k <= blk[a].size - 16
    requires Settled(blk, listed + {a})
    requires x in Cut(blk, a, k, left, !left)
    ensures Coalesced(Cut(blk, a, k, left, !left), x)
  {
    Bounds(brk, blk);
    assert Coalesced(blk, a);
    if x != a && x != a + k {
      assert Coalesced(blk, x);
    }
  }

  lemma AllocSettled(blk: map<int, Block>, listed: set<int>, a: int)
    requires a in blk && Settled(blk, listed + {a})
    ensures Settled(blk[a := Block(blk[a].size, true)], listed)
  {
    var blk' := blk[a := Block(blk[a].size, true)];
    forall x {:trigger Coalesced(blk', x)} | x in blk' ensures Coalesced(blk', x) {
      assert Coalesced(blk, x);
    }
  }

  lemma FreeSettled(brk: int, blk: map<int, Block>, listed: set<int>, a: int)
    requires a in blk && Settled(blk, listed)
    ensures SettledBut(blk[a := Block(blk[a].size, false)], listed, a)
  {
    var blk' := blk[a := Block(blk[a].size, false)];
    forall x {:trigger Coalesced(blk', x)} | x in blk' && x != a && x + blk'[x].size != a ensures Coalesced(blk', x) {
      assert Coalesced(blk, x);
    }
  }

  lemma GrowSettled(brk: int, blk: map<int, Block>, listed: set<int>, k: int)
    requires Tiling(brk, blk) && Settled(blk, listed)
    ensures SettledBut(blk[brk := Block(k, false)], listed, brk)
  {
    var blk' := blk[brk := Block(k, false)];
    forall x {:trigger Coalesced(blk', x)} | x in blk' && x != brk && x + blk'[x].size != brk
      ensures Coalesced(blk', x)
    {
      assert Coalesced(blk, x);
    }
  }

  /** The heap grown by `k` bytes: its last block `r` is free and takes in a last block that was free. */
  ghost predicate Extended(brk: int, blk: map<int, Block>, brk': int, blk': map<int, Block>, k: int, r: int) {
    && brk' == brk + k && PROLOGUE < r <= brk
    && blk' == Merged(blk, r, brk', false)
    && if r == brk then forall p :: p in blk && p + blk[p].size == brk ==> blk[p].alloc
       else r in blk && !blk[r].alloc && r + blk[r].size == brk
  }

  /** The result of extending the heap: the last block is free and reaches to the new break. */
  lemma GrowSpan(brk: int, blk: map<int, Block>, k: int, lo: int, e: int)
    requires Tiling(brk, blk) && 8 <= k
    requires Span(blk[brk := Block(k, false)], brk, lo, e)
    ensures e == brk + k && PROLOGUE < lo <= brk
    ensures Merged(blk[brk := Block(k, false)], lo, e, false) == Merged(blk, lo, e, false)
    ensures if lo == brk then forall p :: p in blk && p + blk[p].size == brk ==> blk[p].alloc
            else lo in blk && !blk[lo].alloc && lo + blk[lo].size == brk
  {
    Bounds(brk, blk);
    var blk' := blk[brk := Block(k, false)];
    if lo == brk {
      forall p | p in blk && p + blk[p].size == brk ensures blk[p].alloc {
        assert p in blk' && p + blk'[p].size == brk;
      }
    }
  }

  // ------------------------------------------------------------------------------------------
  // Writing inside a live payload

  /** A write inside one live payload is invisible to the allocator and to every other payload. */
  lemma WriteConsistent(m: seq<byte>, n: seq<byte>, heads: seq<int>, brk: int, blk: map<int, Block>,
                        nodes: map<int, Node>, stamp: int, a: int, lo: int, hi: int)
    requires Consistent(m, heads, brk, blk, nodes, stamp)
    requires a in blk && blk[a].alloc && a != PROLOGUE
    requires a <= lo <= hi <= a + blk[a].size - 8
    requires SameOutside(m, n, lo, hi)
    ensures Consistent(n, heads, brk, blk, nodes, stamp)
    ensures SameLive(Contents(m, blk), Contents(n, blk), a, a + 1)
  {
    forall x {:trigger TagOk(n, blk, x)} | x in blk ensures TagOk(n, blk, x) {
      WriteTag(m, n, brk, blk, a, lo, hi, x);
    }
    assert Placed(brk, blk, a);
    WordSame(m, n, lo, hi, brk - 4);
    WriteStored(m, n, brk, blk, nodes, a, lo, hi);
    WriteLive(m, n, brk, blk, a, lo, hi);
  }

  lemma WriteStored(m: seq<byte>, n: seq<byte>, brk: int, blk: map<int, Block>, nodes: map<int, Node>, a: int,
                    lo: int, hi: int)
    requires Tiling(brk, blk) && Stored(m, blk, nodes)
    requires a in blk && blk[a].alloc && a <= lo <= hi <= a + blk[a].size - 8
    requires SameOutside(m, n, lo, hi)
    ensures Stored(n, blk, nodes)
  {
    forall x {:trigger NodeStored(n, blk, nodes, x)} | x in nodes ensures NodeStored(n, blk, nodes, x) {
      assert NodeStored(m, blk, nodes, x);
      assert Placed(brk, blk, x);
      WordSame(m, n, lo, hi, x);
      WordSame(m, n, lo, hi, x + 4);
    }
  }

  lemma WriteTag(m: seq<byte>, n: seq<byte>, brk: int, blk: map<int, Block>, a: int, lo: int, hi: int, x: int)
    requires Tiling(brk, blk) && Tagged(m, brk, blk)
    requires a in blk && x in blk && a <= lo <= hi <= a + blk[a].size - 8
    requires SameOutside(m, n, lo, hi)
    ensures TagOk(n, blk, x)
  {
    assert TagOk(m, blk, x);
    assert Placed(brk, blk, x) && Placed(brk, blk, a);
    WordSame(m, n, lo, hi, x - 4);
    WordSame(m, n, lo, hi, x + blk[x].size - 8);
  }

  lemma WriteLive(m: seq<byte>, n: seq<byte>, brk: int, blk: map<int, Block>, a: int, lo: int, hi: int)
    requires Tiling(brk, blk)
    requires a in blk && a <= lo <= hi <= a + blk[a].size - 8
    requires SameOutside(m, n, lo, hi)
    ensures SameLive(Contents(m, blk), Contents(n, blk), a, a + 1)
  {
    var c, d := Contents(m, blk), Contents(n, blk);
    forall x | !(a <= x < a + 1) ensures (x in c <==> x in d) && (x in c ==> c[x] == d[x]) {
      if x in c {
        PayloadSame(m, n, lo, hi, x, blk[x].size);
      }
    }
  }

  // ------------------------------------------------------------------------------------------
  // Searching the lists

  /** No block of the lists before `i` has `asize` bytes. */
  ghost predicate NoFitBefore(blk: map<int, Block>, nodes: map<int, Node>, asize: int, i: int) {
    forall x {:trigger nodes[x].list} :: x in nodes && nodes[x].list < i ==> x in blk && blk[x].size < asize
  }

  /** `r` fits, and comes before every other block that fits: it is in the first list that has one,
      and was pushed on it last. */
  ghost predicate FirstFit(blk: map<int, Block>, nodes: map<int, Node>, asize: int, r: int) {
    && r in nodes && r in blk && !blk[r].alloc && asize <= blk[r].size
    && forall x {:trigger nodes[x].list} :: x in nodes && x in blk && asize <= blk[x].size ==>
         nodes[r].list < nodes[x].list || (nodes[r].list == nodes[x].list && nodes[x].rank <= nodes[r].rank)
  }

  ghost predicate TooSmall(blk: map<int, Block>, asize: int, x: int) {
    x in blk && blk[x].size < asize
  }

  /** The walk of list `i` has come to `bp` without a fit. */
  ghost predicate Searched(blk: map<int, Block>, nodes: map<int, Node>, heads: seq<int>, stamp: int, asize: int,
                           i: int, bp: int) {
    && Linked(nodes, heads, stamp)
    && (bp == 0 || (bp in nodes && nodes[bp].list == i))
    && forall x {:trigger nodes[x].list} :: x in nodes && nodes[x].list == i ==>
         x in Chain(nodes, heads, stamp, bp) || TooSmall(blk, asize, x)
  }

  lemma SearchStart(blk: map<int, Block>, nodes: map<int, Node>, heads: seq<int>, stamp: int, asize: int, i: int)
    requires Linked(nodes, heads, stamp) && 0 <= i < LISTMAX
    ensures Searched(blk, nodes, heads, stamp, asize, i, heads[i])
  {
    ListComplete(nodes, heads, stamp, i);
    assert HeadOk(nodes, heads, i);
  }

  lemma SearchMiss(blk: map<int, Block>, nodes: map<int, Node>, heads: seq<int>, stamp: int, asize: int, i: int,
                   bp: int)
    requires Searched(blk, nodes, heads, stamp, asize, i, bp) && bp != 0 && TooSmall(blk, asize, bp)
    ensures Searched(blk, nodes, heads, stamp, asize, i, nodes[bp].next)
  {
    assert NodeOk(nodes, heads, stamp, bp);
    var s := nodes[bp].next;
    assert s == 0 || (s in nodes && nodes[s].list == i);
    forall x {:trigger nodes[x].list} | x in nodes && nodes[x].list == i
      ensures x in Chain(nodes, heads, stamp, s) || TooSmall(blk, asize, x)
    {
      assert x in Chain(nodes, heads, stamp, bp) || TooSmall(blk, asize, x);
    }
  }

  lemma SearchHit(blk: map<int, Block>, nodes: map<int, Node>, heads: seq<int>, stamp: int, asize: int, i: int, bp: int)
    requires Searched(blk, nodes, heads, stamp, asize, i, bp) && bp != 0
    requires NoFitBefore(blk, nodes, asize, i)
    requires bp in blk && !blk[bp].alloc && asize <= blk[bp].size
    ensures FirstFit(blk, nodes, asize, bp)
  {
    ChainOrdered(nodes, heads, stamp, bp);
    forall x {:trigger nodes[x].list} | x in nodes && x in blk && asize <= blk[x].size
      ensures nodes[bp].list < nodes[x].list || (nodes[bp].list == nodes[x].list && nodes[x].rank <= nodes[bp].rank)
    {
      if nodes[x].list == i {
        assert x in Chain(nodes, heads, stamp, bp);
      }
    }
  }

  lemma EarlierTooSmall(m: seq<byte>, blk: map<int, Block>, nodes: map<int, Node>, asize: nat, i: nat)
    requires Stored(m, blk, nodes) && i == BucketOf(asize)
    ensures NoFitBefore(blk, nodes, asize, i)
  {
    forall x {:trigger nodes[x].list} | x in nodes && nodes[x].list < i ensures x in blk && blk[x].size < asize {
      assert NodeStored(m, blk, nodes, x);
      if blk[x].size >= asize {
        BucketMonotone(asize, blk[x].size);
      }
    }
  }

  lemma NoFitAnywhere(m: seq<byte>, heads: seq<int>, blk: map<int, Block>, nodes: map<int, Node>, stamp: int,
                      asize: int)
    requires Linked(nodes, heads, stamp) && Settled(blk, nodes.Keys)
    requires NoFitBefore(blk, nodes, asize, LISTMAX)
    ensures forall x :: x in blk && !blk[x].alloc ==> blk[x].size < asize
  {
    forall x | x in blk && !blk[x].alloc ensures blk[x].size < asize {
      assert NodeOk(nodes, heads, stamp, x);
    }
  }

  /** What find_fit reads at a listed block: its size and its successor. */
  lemma ReadNode(m: seq<byte>, heads: seq<int>, brk: int, blk: map<int, Block>, nodes: map<int, Node>, stamp: int,
                 a: int)
    requires Consistent(m, heads, brk, blk, nodes, stamp) && a in nodes
    ensures a in blk && !blk[a].alloc && SizeOf(Word(m, a - 4)) == blk[a].size
    ensures nodes[a].next == if Word(m, a + 4) == 0 then 0 else PROLOGUE + Word(m, a + 4)
    ensures nodes[a].next != 0 ==>
      nodes[a].next in nodes && nodes[nodes[a].next].list == nodes[a].list && nodes[nodes[a].next].rank < nodes[a].rank
    ensures 0 <= nodes[a].rank
    ensures Chain(nodes, heads, stamp, a) ==
      [a] + (if nodes[a].next == 0 then [] else Chain(nodes, heads, stamp, nodes[a].next))
  {
    assert NodeStored(m, blk, nodes, a);
    assert NodeOk(nodes, heads, stamp, a);
    ReadBlock(m, brk, blk, a);
    var s := nodes[a].next;
    if s != 0 {
      assert NodeStored(m, blk, nodes, s);
    }
  }

  // ------------------------------------------------------------------------------------------
  // Placing a request in a free block

  /** The live blocks after one more, at `r`, was handed out. */
  ghost predicate Gained(c: map<int, seq<byte>>, d: map<int, seq<byte>>, r: int) {
    r !in c && r in d && d == c[r := d[r]]
  }

  /** A free block that was taken off its list, with everything else settled. */
  ghost predicate InTransit(blk: map<int, Block>, listed: set<int>, b: int) {
    b in blk && PROLOGUE < b && !blk[b].alloc && b !in listed && Settled(blk, listed + {b})
  }

  lemma GainedOne(c: map<int, seq<byte>>, d: map<int, seq<byte>>, lo: int, e: int, r: int)
    requires SameLive(c, d, lo, e) && lo <= r < e && r in d
    requires forall x :: lo <= x < e ==> x !in c && (x in d ==> x == r)
    ensures Gained(c, d, r)
  {
    var c' := c[r := d[r]];
    forall x ensures x in d <==> x in c' {
      assert !(lo <= x < e) ==> (x in c <==> x in d);
    }
    forall x | x in d ensures d[x] == c'[x] {
      if x != r {
        assert x in c && c[x] == d[x];
      }
    }
    assert d == c';
  }

  lemma CutLive(n: seq<byte>, brk: int, blk: map<int, Block>, a: int, k: int, left: bool,
                c: map<int, seq<byte>>, d: map<int, seq<byte>>)
    requires Tiling(brk, blk) && a in blk && PROLOGUE < a && !blk[a].alloc
    requires 8 <= k <= blk[a].size - 8
    requires c.Keys <= blk.Keys && a !in c
    requires d == Contents(n, Cut(blk, a, k, left, !left))
    requires SameLive(c, d, a, a + blk[a].size)
    ensures Gained(c, d, if left then a else a + k)
  {
    var e := a + blk[a].size;
    forall x | a <= x < e ensures x !in c && (x in d ==> x == if left then a else a + k) {
      if x != a && x != a + k {
        assert x !in blk;
      }
    }
    GainedOne(c, d, a, e, if left then a else a + k);
  }

  lemma CutFits(brk: int, blk: map<int, Block>, a: int, k: int)
    requires Tiling(brk, blk) && Aligned(brk, blk) && a in blk && Multiple8(k)
    ensures Multiple8(blk[a].size - k) && a + blk[a].size <= brk
  {
    assert Placed(brk, blk, a) && BlockAligned(blk, a);
    Multiples(k, blk[a].size);
  }

  lemma PlaceBounds(m: seq<byte>, brk: int, blk: map<int, Block>, nodes: map<int, Node>, a: int, asize: int)
    requires Tiling(brk, blk) && Aligned(brk, blk) && Stored(m, blk, nodes) && Settled(blk, nodes.Keys)
    requires a in nodes && a in blk && Multiple8(asize)
    ensures Multiple8(blk[a].size - asize) && InTransit(blk, nodes.Keys - {a}, a)
  {
    assert NodeStored(m, blk, nodes, a);
    CutFits(brk, blk, a, asize);
    assert nodes.Keys - {a} + {a} == nodes.Keys;
  }

  lemma TransitFits(m: seq<byte>, brk: int, blk: map<int, Block>, nodes: map<int, Node>, a: int)
    requires Tiling(brk, blk) && Aligned(brk, blk) && InTransit(blk, nodes.Keys, a)
    ensures 8 <= blk[a].size && Multiple8(blk[a].size) && a + blk[a].size <= brk
  {
    assert Placed(brk, blk, a) && BlockAligned(blk, a);
  }

  /** A heap just extended ends in a free block of at least the size asked for. */
  lemma ExtendedLast(brk: int, blk: map<int, Block>, brk': int, blk': map<int, Block>, k: int, r: int)
    requires Extended(brk, blk, brk', blk', k, r)
    ensures r in blk' && !blk'[r].alloc && k <= blk'[r].size && r + blk'[r].size == brk'
  {
  }

  lemma LiveAt(m: seq<byte>, brk: int, blk: map<int, Block>, a: int)
    requires Tiling(brk, blk) && brk <= |m| && a in Contents(m, blk)
    ensures a in blk && blk[a].alloc && PROLOGUE < a && |Contents(m, blk)[a]| == blk[a].size - 8
  {
    assert Placed(brk, blk, a);
  }

  lemma LivePlaced(m: seq<byte>, brk: int, blk: map<int, Block>, nodes: map<int, Node>, a: int)
    requires Tiling(brk, blk) && Aligned(brk, blk) && Stored(m, blk, nodes) && a in Contents(m, blk)
    ensures PROLOGUE < a && 8 <= blk[a].size && Multiple8(blk[a].size) && a + blk[a].size <= brk && a !in nodes
  {
    assert Placed(brk, blk, a) && BlockAligned(blk, a);
    assert a in nodes ==> NodeStored(m, blk, nodes, a);
  }

  lemma LostOne(c: map<int, seq<byte>>, d: map<int, seq<byte>>, a: int)
    requires SameLive(c, d, a, a + 1) && a !in d
    ensures d == c - {a}
  {
    var c' := c - {a};
    forall x ensures x in d <==> x in c' {
      assert x != a ==> (x in c <==> x in d);
    }
    forall x | x in d ensures d[x] == c'[x] {
      assert x in c && c[x] == d[x];
    }
  }

  // ------------------------------------------------------------------------------------------
  // Resizing a live block

  /** `r` now holds the block that was at `a`, with room for `size` bytes and as much of the old
      payload as fits; every other live block is as before. */
  ghost predicate Resized(c: map<int, seq<byte>>, d: map<int, seq<byte>>, a: int, r: int, size: int) {
    && a in c && r in d && (r == a || r !in c)
    && d == (c - {a})[r := d[r]]
    && size <= |d[r]|
    && forall i :: 0 <= i < |c[a]| && i < |d[r]| ==> d[r][i] == c[a][i]
  }

  lemma ResizedOne(c: map<int, seq<byte>>, d: map<int, seq<byte>>, a: int, e: int, size: int)
    requires SameLive(c, d, a, e) && a in c && a in d && a < e
    requires forall x :: a < x < e ==> x !in c && x !in d
    requires size <= |d[a]|
    requires forall i :: 0 <= i < |c[a]| && i < |d[a]| ==> d[a][i] == c[a][i]
    ensures Resized(c, d, a, a, size)
  {
    var c' := (c - {a})[a := d[a]];
    forall x ensures x in d <==> x in c' {
      assert !(a <= x < e) ==> (x in c <==> x in d);
    }
    forall x | x in d ensures d[x] == c'[x] {
      if x != a {
        assert x in c && c[x] == d[x];
      }
    }
    assert d == c';
  }

  /** Shrinking: the block cut off has a free right neighbour or room for links of its own. */
  lemma ShrinkSettled(brk: int, blk: map<int, Block>, listed: set<int>, a: int, k: int)
    requires Tiling(brk, blk) && Settled(blk, listed)
    requires a in blk && blk[a].alloc && PROLOGUE < a && 16 <= k <= blk[a].size - 8
    ensures SettledBut(Cut(blk, a, k, true, false), listed, a + k)
    ensures NextFree(blk, a) <==> NextFree(Cut(blk, a, k, true, false), a + k)
  {
    var blk' := Cut(blk, a, k, true, false);
    Bounds(brk, blk);
    assert blk'[a + k].size == blk[a].size - k;
    forall x {:trigger Coalesced(blk', x)} | x in blk' && x != a + k && x + blk'[x].size != a + k
      ensures Coalesced(blk', x)
    {
      ShrinkCoalesced(brk, blk, listed, a, k, x);
    }
    hide Tiling, Coalesced;
  }

  lemma ShrinkCoalesced(brk: int, blk: map<int, Block>, listed: set<int>, a: int, k: int, x: int)
    requires Tiling(brk, blk) && Settled(blk, listed)
    requires a in blk && blk[a].alloc && 16 <= k <= blk[a].size - 8
    requires x in blk && x != a + k && x != a
    ensures Coalesced(Cut(blk, a, k, true, false), x)
  {
    assert Coalesced(blk, x);
    Bounds(brk, blk);
    assert if x < a then x + blk[x].size <= a else a + blk[a].size <= x;
  }

  lemma LiveNext(m: seq<byte>, brk: int, blk: map<int, Block>, a: int)
    requires Tiling(brk, blk) && brk <= |m| && a in Contents(m, blk)
    ensures forall x :: a < x < a + blk[a].size ==> x !in blk
  {
  }

  /** A live block takes in its free right neighbour, already off its list. */
  lemma AbsorbSettled(brk: int, blk: map<int, Block>, listed: set<int>, a: int, b: int, e: int)
    requires Tiling(brk, blk)
    requires a in blk && blk[a].alloc && PROLOGUE < a && b == a + blk[a].size && b in blk && e == b + blk[b].size
    requires Settled(blk, listed + {b})
    ensures Settled(Merged(blk, a, e, true), listed)
  {
    var blk' := Merged(blk, a, e, true);
    Bounds(brk, blk);
    forall x {:trigger Coalesced(blk', x)} | x in blk' ensures Coalesced(blk', x) {
      if x != a {
        assert Coalesced(blk, x);
      }
    }
  }

  /** A live block takes `k` bytes of itself and its free right neighbour; the rest stays free. */
  lemma TakeSettled(brk: int, blk: map<int, Block>, listed: set<int>, a: int, b: int, e: int, k: int)
    requires Tiling(brk, blk)
    requires a in blk && blk[a].alloc && PROLOGUE < a && b == a + blk[a].size && b in blk && e == b + blk[b].size
    requires !blk[b].alloc && 16 <= k <= e - a - 16
    requires Settled(blk, listed + {b})
    ensures Settled(Cut(Merged(blk, a, e, true), a, k, true, false), listed + {a + k})
  {
    var blk' := TakenAt(blk, a, e, k, a + k);
    forall x {:trigger Coalesced(blk', x)} | x in blk' ensures Coalesced(blk', x) {
      TakeCoalesced(brk, blk, listed, a, b, e, k, x);
    }
  }

  lemma TakeCoalesced(brk: int, blk: map<int, Block>, listed: set<int>, a: int, b: int, e: int, k: int, x: int)
    requires Tiling(brk, blk)
    requires a in blk && blk[a].alloc && PROLOGUE < a && b == a + blk[a].size && b in blk && e == b + blk[b].size
    requires !blk[b].alloc && 16 <= k <= e - a - 16
    requires Settled(blk, listed + {b})
    requires x in Cut(Merged(blk, a, e, true), a, k, true, false)
    ensures Coalesced(Cut(Merged(blk, a, e, true), a, k, true, false), x)
  {
    var blk' := TakenAt(blk, a, e, k, a + k);
    hide Cut, Merged;
    EndsOutside(brk, blk, a, b, a);
    assert Coalesced(blk, b);
    if x != a && x != a + k {
      assert x in blk && Coalesced(blk, x);
      EndsOutside(brk, blk, a, b, x);
    }
    hide Tiling, Settled;
    assert Coalesced(blk', x);
  }

  /** No block ends inside two neighbouring blocks, except the first of them. */
  lemma EndsOutside(brk: int, blk: map<int, Block>, a: int, b: int, x: int)
    requires Tiling(brk, blk)
    requires a in blk && b == a + blk[a].size && b in blk && x in blk
    ensures a < b < b + blk[b].size
    ensures var y := x + blk[x].size; y <= a || y == b || b + blk[b].size <= y
  {
    Bounds(brk, blk);
    if x < a {
      assert x + blk[x].size <= a;
    } else if a < x && x != b {
      assert b + blk[b].size <= x;
    }
  }

  lemma TakenAt(blk: map<int, Block>, a: int, e: int, k: int, tail: int) returns (blk': map<int, Block>)
    requires 0 < k < e - a && tail == a + k
    ensures blk' == Cut(Merged(blk, a, e, true), a, k, true, false)
    ensures a in blk' && blk'[a] == Block(k, true)
    ensures tail in blk' && !blk'[tail].alloc && blk'[tail].size == e - a - k
    ensures forall x :: a < x < e && x in blk' ==> x == tail
    ensures forall x :: !(a <= x < e) ==> (x in blk' <==> x in blk) && (x in blk ==> blk'[x] == blk[x])
  {
    blk' := Cut(Merged(blk, a, e, true), a, k, true, false);
  }

  /** Four tag words written around whole unlisted blocks [a, e) make two blocks of them. */
  lemma RepartitionConsistent(m: seq<byte>, n: seq<byte>, heads: seq<int>, brk: int, blk: map<int, Block>,
                              nodes: map<int, Node>, stamp: int, a: int, e: int, k: int, left: bool, right: bool)
    requires Consistent(m, heads, brk, blk, nodes, stamp)
    requires a in blk && PROLOGUE < a < e && (e == brk || e in blk)
    requires forall x :: x in nodes ==> !(a <= x < e)
    requires Multiple8(k) && 8 <= k <= e - a - 8
    requires SameOutside(m, n, a - 4, e - 4)
    requires Word(n, a - 4) == Word(n, a + k - 8) == Tag(Block(k, left))
    requires Word(n, a + k - 4) == Word(n, e - 8) == Tag(Block(e - a - k, right))
    ensures Consistent(n, heads, brk, Cut(Merged(blk, a, e, left), a, k, left, right), nodes, stamp)
    ensures SameLive(Contents(m, blk), Contents(n, Cut(Merged(blk, a, e, left), a, k, left, right)), a, e)
    ensures a + k !in nodes
  {
    var m2 := WithMergedTags(m, heads, brk, blk, nodes, stamp, a, e, left);
    var blk1 := Merged(blk, a, e, left);
    assert a in blk1 && blk1[a] == Block(e - a, left);
    assert a + blk1[a].size == e;
    CutConsistent(m2, n, heads, brk, blk1, nodes, stamp, a, k, left, right);
    SameLiveTrans(Contents(m, blk), Contents(m2, blk1), Contents(n, Cut(blk1, a, k, left, right)), a, e);
  }

  lemma SameLiveTrans(c: map<int, seq<byte>>, d: map<int, seq<byte>>, f: map<int, seq<byte>>, lo: int, e: int)
    requires SameLive(c, d, lo, e) && SameLive(d, f, lo, e)
    ensures SameLive(c, f, lo, e)
  {
    forall x | !(lo <= x < e) ensures (x in c <==> x in f) && (x in c ==> c[x] == f[x]) {
      assert x in c <==> x in d;
      assert x in d <==> x in f;
    }
  }

  /** A memory in which [a, e) is tagged as one block. */
  lemma WithMergedTags(m: seq<byte>, heads: seq<int>, brk: int, blk: map<int, Block>,
                       nodes: map<int, Node>, stamp: int, a: int, e: int, alloc: bool) returns (n: seq<byte>)
    requires Consistent(m, heads, brk, blk, nodes, stamp)
    requires a in blk && PROLOGUE < a && a + 16 <= e && (e == brk || e in blk)
    requires forall x :: x in nodes ==> !(a <= x < e)
    ensures SameOutside(m, n, a - 4, e - 4)
    ensures Consistent(n, heads, brk, Merged(blk, a, e, alloc), nodes, stamp)
    ensures SameLive(Contents(m, blk), Contents(n, Merged(blk, a, e, alloc)), a, e)
  {
    assert e <= brk by {
      Bounds(brk, blk);
    }
    var tag := Tag(Block(e - a, alloc));
    var m1 := PutWord(m, a - 4, tag);
    n := PutWord(m1, e - 8, tag);
    WordSame(m1, n, e - 8, e - 4, a - 4);
    MergeConsistent(m, n, heads, brk, blk, nodes, stamp, a, e, alloc);
  }

  /** A memory with one word replaced. */
  ghost function PutWord(m: seq<byte>, p: int, v: int): (n: seq<byte>)
    requires 0 <= p <= |m| - 4 && 0 <= v < WORD_LIMIT
    ensures SameOutside(m, n, p, p + 4) && Word(n, p) == v
  {
    assert Pow256(4) == WORD_LIMIT;
    DecodeEncode(v, 4);
    Splice(m, p, Encode(v, 4))
  }

  /** Live block `a` and the free block `b` after it, off its list, are `total` bytes together. */
  ghost predicate Absorbing(blk: map<int, Block>, listed: set<int>, a: int, b: int, total: int) {
    && a in blk && blk[a].alloc && PROLOGUE < a && b == a + blk[a].size && b in blk && !blk[b].alloc
    && total == blk[a].size + blk[b].size && b !in listed && Settled(blk, listed + {b})
  }

  lemma AbsorbSpan(m: seq<byte>, heads: seq<int>, brk: int, blk: map<int, Block>, nodes: map<int, Node>, stamp: int,
                   a: int, b: int, e: int)
    requires Consistent(m, heads, brk, blk, nodes, stamp)
    requires Absorbing(blk, nodes.Keys, a, b, e - a)
    ensures 16 <= e - a && (e == brk || e in blk) && e <= brk
    ensures forall x :: x in nodes ==> !(a <= x < e)
    ensures forall x :: a < x < e && x != b ==> x !in blk
  {
    assert Placed(brk, blk, a) && Placed(brk, blk, b);
    NothingAbove(m, brk, blk, nodes);
    assert a in nodes ==> NodeStored(m, blk, nodes, a);
  }

  lemma GrowBounds(m: seq<byte>, heads: seq<int>, brk: int, blk: map<int, Block>, nodes: map<int, Node>, stamp: int,
                   a: int, newsize: int, b: int) returns (total: int, listed: set<int>)
    requires Consistent(m, heads, brk, blk, nodes, stamp) && Settled(blk, nodes.Keys)
    requires a in Contents(m, blk) && NextFree(blk, a) && Multiple8(newsize)
    requires b == a + SizeOf(Word(m, a - 4))
    ensures b == a + blk[a].size && b in nodes && listed == nodes.Keys - {b}
    ensures total == SizeOf(Word(m, a - 4)) + SizeOf(Word(m, b - 4)) == blk[a].size + blk[b].size
    ensures Multiple8(total) && Multiple8(total - newsize)
    ensures Absorbing(blk, listed, a, b, total)
  {
    ReadBlock(m, brk, blk, a);
    ReadBlock(m, brk, blk, b);
    assert Placed(brk, blk, a);
    assert BlockAligned(blk, a) && BlockAligned(blk, b);
    Multiples(blk[a].size, blk[b].size);
    Multiples(newsize, blk[a].size + blk[b].size);
    listed := nodes.Keys - {b};
    assert listed + {b} == nodes.Keys;
    total := blk[a].size + blk[b].size;
  }

  lemma ResizedEnough(c: map<int, seq<byte>>, d: map<int, seq<byte>>, a: int, r: int, s: int, size: int)
    requires Resized(c, d, a, r, s) && size <= s
    ensures Resized(c, d, a, r, size)
  {
  }

  /** Resizing read off memory: the bytes both sizes share are unchanged, and [a, e) has no other live block. */
  lemma ResizedBlock(m: seq<byte>, n: seq<byte>, brk: int, blk: map<int, Block>, blk': map<int, Block>, a: int,
                     e: int, size: int)
    requires Tiling(brk, blk) && Tiling(brk, blk') && brk <= |m| == |n|
    requires a in blk && blk[a].alloc && a in blk' && blk'[a].alloc && PROLOGUE < a < e
    requires SameLive(Contents(m, blk), Contents(n, blk'), a, e)
    requires forall x :: a < x < e && x in blk ==> !blk[x].alloc
    requires forall x :: a < x < e && x in blk' ==> !blk'[x].alloc
    requires size <= blk'[a].size - 8
    requires forall i :: a <= i < a + blk[a].size - 8 && i < a + blk'[a].size - 8 && i < |m| ==> n[i] == m[i]
    ensures Resized(Contents(m, blk), Contents(n, blk'), a, a, size)
  {
    assert Placed(brk, blk, a);
    assert Placed(brk, blk', a);
    var c, d := Contents(m, blk), Contents(n, blk');
    assert |c[a]| == blk[a].size - 8 && |d[a]| == blk'[a].size - 8;
    forall i | 0 <= i < |c[a]| && i < |d[a]| ensures d[a][i] == c[a][i] {
      assert n[a + i] == m[a + i];
    }
    ResizedOne(c, d, a, e, size);
  }

  lemma ResizedSame(c: map<int, seq<byte>>, a: int, size: int)
    requires a in c && size <= |c[a]|
    ensures Resized(c, c, a, a, size)
  {
    assert c == (c - {a})[a := c[a]];
  }

  /** A block of at least 8 bytes more than `k`, whose free right neighbour or own tail leaves 16 bytes. */
  lemma ShrinkRoom(brk: int, blk: map<int, Block>, listed: set<int>, a: int, k: int)
    requires Tiling(brk, blk) && Aligned(brk, blk) && Settled(blk, listed)
    requires a in blk && Multiple8(k) && k < blk[a].size
    ensures k <= blk[a].size - 8
  {
    assert BlockAligned(blk, a);
    Multiples(k, blk[a].size);
  }

  lemma LiveBounds(m: seq<byte>, brk: int, blk: map<int, Block>, a: int)
    requires Tiling(brk, blk) && brk <= |m| && a in Contents(m, blk)
    ensures a in blk && blk[a].alloc && PROLOGUE < a && a + |Contents(m, blk)[a]| + 8 == a + blk[a].size <= brk
    ensures Contents(m, blk)[a] == m[a..a + blk[a].size - 8]
  {
    assert Placed(brk, blk, a);
  }

  /** The payloads of two live blocks do not overlap. */
  lemma LiveApart(m: seq<byte>, brk: int, blk: map<int, Block>, a: int, b: int)
    requires Tiling(brk, blk) && brk <= |m|
    requires a in Contents(m, blk) && b in Contents(m, blk) && a != b
    ensures a + |Contents(m, blk)[a]| + 8 <= b || b + |Contents(m, blk)[b]| + 8 <= a
  {
    LiveAt(m, brk, blk, a);
    LiveAt(m, brk, blk, b);
  }

  /** The live payloads after the first `k` bytes of `a`'s were overwritten by `s`. */
  lemma Overwritten(m: seq<byte>, n: seq<byte>, brk: int, blk: map<int, Block>, a: int, k: int, s: seq<byte>)
    requires Tiling(brk, blk) && brk <= |m| == |n| && a in Contents(m, blk) && 0 <= k == |s| <= |Contents(m, blk)[a]|
    requires SameLive(Contents(m, blk), Contents(n, blk), a, a + 1)
    requires SameOutside(m, n, a, a + k) && a + k <= |n| && 0 <= a && n[a..a + k] == s
    ensures a in Contents(n, blk) && Contents(n, blk) == Contents(m, blk)[a := s + Contents(m, blk)[a][k..]]
  {
    LiveBounds(m, brk, blk, a);
    LiveBounds(n, brk, blk, a);
    var c, d := Contents(m, blk), Contents(n, blk);
    assert d[a] == s + c[a][k..];
    forall x | x in d && x != a ensures x in c && d[x] == c[x] {
      assert x in c <==> x in d;
    }
    assert d == c[a := d[a]];
  }

  /** What mm_realloc reads beyond the next block: a size of 0 marks the epilogue. */
  lemma ReadAhead(m: seq<byte>, brk: int, blk: map<int, Block>, a: int, next: int)
    requires Tiling(brk, blk) && Aligned(brk, blk) && Tagged(m, brk, blk)
    requires a in blk && next == a + blk[a].size
    ensures SizeOf(Word(m, next - 4)) == 0 <==> next == brk
    ensures next != brk ==> next in blk && SizeOf(Word(m, next - 4)) == blk[next].size
    ensures next != brk ==> (SizeOf(Word(m, next + blk[next].size - 4)) == 0 <==> next + blk[next].size == brk)
    ensures NextFree(blk, a) ==> blk[next].size > 0 && next != brk
  {
    ReadNext(m, brk, blk, a);
    if next != brk {
      ReadNext(m, brk, blk, next);
    }
  }

  /** After an extension the block behind `a` is free and reaches to the new break. */
  lemma ExtendedNext(brk: int, blk: map<int, Block>, brk': int, blk': map<int, Block>, k: int, r: int, a: int,
                     next: int)
    requires Tiling(brk, blk) && Extended(brk, blk, brk', blk', k, r) && 0 < k
    requires a in blk && blk[a].alloc && next == a + blk[a].size && AtEnd(brk, blk, a)
    ensures r == next && a in blk' && blk'[a] == blk[a]
    ensures NextFree(blk', a) && FreeAfter(blk', a) == k + FreeAfter(blk, a)
  {
    Bounds(brk, blk);
    if next != brk && r != brk {
      assert r == next;
    }
  }

  /** malloc, memcpy and free in a row move a block. */
  lemma MoveResized(c: map<int, seq<byte>>, c1: map<int, seq<byte>>, c2: map<int, seq<byte>>, a: int, r: int, size: int)
    requires a in c && Gained(c, c1, r) && |c[a]| <= |c1[r]| && size <= |c1[r]|
    requires c2 == c1[r := c[a] + c1[r][|c[a]|..]]
    ensures Resized(c, c2 - {a}, a, r, size)
  {
    var d := c2 - {a};
    assert d == (c - {a})[r := d[r]];
  }

  /** What mm_realloc reads of a live block and of the block after it. */
  lemma ReadLive(m: seq<byte>, brk: int, blk: map<int, Block>, nodes: map<int, Node>, a: int)
    requires Tiling(brk, blk) && Aligned(brk, blk) && Tagged(m, brk, blk) && Stored(m, blk, nodes) && brk <= |m|
    requires a in Contents(m, blk)
    ensures a in blk && blk[a].alloc && SizeOf(Word(m, a - 4)) == blk[a].size
    ensures |Contents(m, blk)[a]| == blk[a].size - 8
    ensures PROLOGUE < a && a + blk[a].size <= brk && brk !in blk
    ensures var next := a + blk[a].size;
      && (AllocOf(Word(m, next - 4)) <==> !NextFree(blk, a))
      && SizeOf(Word(m, next - 4)) == (if next in blk then blk[next].size else 0)
  {
    LivePlaced(m, brk, blk, nodes, a);
    LiveAt(m, brk, blk, a);
    ReadBlock(m, brk, blk, a);
    ReadNext(m, brk, blk, a);
  }

  // ------------------------------------------------------------------------------------------
  // The heap just after mm_init wrote the prologue and the epilogue

  lemma EmptyHeap(m: seq<byte>, heads: seq<int>)
    requires 144 <= |m| < 0x8000_0000 && |heads| == LISTMAX && forall k :: 0 <= k < LISTMAX ==> heads[k] == 0
    requires Word(m, 132) == 9 && Word(m, 136) == 9 && Word(m, 140) == 1
    ensures var blk := map[PROLOGUE := Block(8, true)];
      Consistent(m, heads, 144, blk, map[], 0) && Settled(blk, {}) && Contents(m, blk) == map[]
  {
    var blk := map[PROLOGUE := Block(8, true)];
    assert PROLOGUE in blk && PROLOGUE + blk[PROLOGUE].size == 144;
    assert Ends(blk, 144);
    assert Placed(144, blk, PROLOGUE);
    assert AllPlaced(144, blk);
    assert Tiling(144, blk);
    assert Aligned(144, blk);
    assert Tagged(m, 144, blk);
    assert AllHeadsOk(map[], heads);
  }
}
