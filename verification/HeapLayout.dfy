/** The implicit block list: headers, footers and how they tile the heap.

    Addresses are byte offsets from `mem_heap_lo()`. A block is named by its payload address `a`;
    its header word is at `a - 4` and its footer word at `a + size - 8`. The ghost map from payload
    addresses to blocks is the abstract view that boundary tags must agree with. */
module HeapLayout {
  import opened Bytes

  /** Payload address of the prologue block, `heap_listp`. */
  const PROLOGUE := 136
  const WORD_LIMIT := 0x1_0000_0000

  datatype Block = Block(size: int, alloc: bool)

  /** GET: the 32-bit word at address `p`. */
  function Word(m: seq<byte>, p: int): nat {
    if 0 <= p <= |m| - 4 then LittleEndian(m[p..p + 4]) else 0
  }

  /** GET_SIZE and GET_ALLOC on a word, PACK of a size and a flag. */
  function SizeOf(w: nat): nat { w / 8 * 8 }

  predicate AllocOf(w: nat) { w % 2 == 1 }

  function Tag(b: Block): int { b.size + if b.alloc then 1 else 0 }

  /** There is one quotient and one rest. */
  lemma Quotient(n: nat, d: nat, q: nat, f: nat)
    requires d in {2, 8} && n == d * q + f && f < d
    ensures n / d == q && n % d == f
  {
    var k, r := n / d, n % d;
    if d == 8 {
      assert n == 8 * k + r && 8 * (k - q) == f - r;
    } else {
      assert n == 2 * k + r && 2 * (k - q) == f - r;
    }
  }

  /** Reading a packed word gives back the size and the flag, as sizes are multiples of 8. */
  lemma TagParts(b: Block)
    requires b.size >= 0 && b.size % 8 == 0
    ensures Tag(b) >= 0 && SizeOf(Tag(b)) == b.size && (AllocOf(Tag(b)) <==> b.alloc)
  {
    var q := b.size / 8;
    assert b.size == 8 * q;
    var f := if b.alloc then 1 else 0;
    Quotient(Tag(b), 8, q, f);
    Quotient(Tag(b), 2, 4 * q, f);
  }

  /** ALIGN: the least multiple of 8 that is at least `size`. */
  function Align(size: nat): (r: nat)
    ensures Multiple8(r) && size <= r < size + 8
  {
    (size + 7) / 8 * 8
  }

  lemma WordSame(m: seq<byte>, n: seq<byte>, lo: int, hi: int, p: int)
    requires SameOutside(m, n, lo, hi)
    requires p + 4 <= lo || hi <= p
    ensures Word(n, p) == Word(m, p)
  {
    if 0 <= p <= |m| - 4 {
      assert n[p..p + 4] == m[p..p + 4];
    }
  }

  lemma WordsSame(m: seq<byte>, n: seq<byte>, lo: int, hi: int)
    requires SameOutside(m, n, lo, hi)
    ensures forall p {:trigger Word(n, p)} :: p + 4 <= lo || hi <= p ==> Word(n, p) == Word(m, p)
  {
    forall p {:trigger Word(n, p)} | p + 4 <= lo || hi <= p ensures Word(n, p) == Word(m, p) {
      WordSame(m, n, lo, hi, p);
    }
  }

  // ------------------------------------------------------------------------------------------
  // The tiling invariant

  /** Some block ends exactly at `a`. */
  ghost predicate Ends(blk: map<int, Block>, a: int) {
    exists p :: p in blk && p + blk[p].size == a
  }

  /** Block `a` lies in the heap, and both its ends are ends of blocks or of the heap. */
  ghost predicate Placed(brk: int, blk: map<int, Block>, a: int)
    requires a in blk
  {
    var s := blk[a].size;
    && PROLOGUE <= a
    && 8 <= s && a + s <= brk
    && (a + s == brk || a + s in blk)
    && (a == PROLOGUE || Ends(blk, a))
  }

  ghost predicate Disjoint(blk: map<int, Block>) {
    forall a, b :: a in blk && b in blk && a < b ==> a + blk[a].size <= b
  }

  predicate Multiple8(x: int) { x % 8 == 0 }

  ghost predicate BlockAligned(blk: map<int, Block>, a: int)
    requires a in blk
  {
    Multiple8(a) && Multiple8(blk[a].size)
  }

  /** Every block starts on a multiple of ALIGNMENT and has a size that is one. */
  ghost predicate Aligned(brk: int, blk: map<int, Block>) {
    && Multiple8(brk)
    && forall a {:trigger BlockAligned(blk, a)} :: a in blk ==> BlockAligned(blk, a)
  }

  ghost predicate AllPlaced(brk: int, blk: map<int, Block>) {
    forall a {:trigger Placed(brk, blk, a)} :: a in blk ==> Placed(brk, blk, a)
  }

  /** The blocks tile [PROLOGUE, brk) without gap or overlap. */
  ghost predicate Tiling(brk: int, blk: map<int, Block>) {
    && 144 <= brk
    && PROLOGUE in blk && blk[PROLOGUE] == Block(8, true)
    && AllPlaced(brk, blk)
    && Disjoint(blk)
    && Ends(blk, brk)
  }

  /** Header and footer of block `a` both hold its size and allocated bit. */
  ghost predicate TagOk(m: seq<byte>, blk: map<int, Block>, a: int)
    requires a in blk
  {
    Word(m, a - 4) == Tag(blk[a]) && Word(m, a + blk[a].size - 8) == Tag(blk[a])
  }

  /** Every block's tags, and the epilogue header, are what the abstract map says. */
  ghost predicate Tagged(m: seq<byte>, brk: int, blk: map<int, Block>) {
    && (forall a {:trigger TagOk(m, blk, a)} :: a in blk ==> TagOk(m, blk, a))
    && Word(m, brk - 4) == 1
  }

  /** The blocks of [a, e) replaced by a single block. */
  ghost function Merged(blk: map<int, Block>, a: int, e: int, alloc: bool): map<int, Block> {
    (map x | x in blk && !(a <= x < e) :: blk[x])[a := Block(e - a, alloc)]
  }

  /** Block `a` cut after `n` bytes. */
  ghost function Cut(blk: map<int, Block>, a: int, n: int, left: bool, right: bool): map<int, Block>
    requires a in blk
  {
    blk[a := Block(n, left)][a + n := Block(blk[a].size - n, right)]
  }

  lemma Bounds(brk: int, blk: map<int, Block>)
    requires Tiling(brk, blk)
    ensures forall x :: x in blk ==> PROLOGUE <= x && 8 <= blk[x].size && x + blk[x].size <= brk
  {
    forall x | x in blk ensures PROLOGUE <= x && 8 <= blk[x].size && x + blk[x].size <= brk {
      assert Placed(brk, blk, x);
    }
  }

  lemma MergeDisjoint(brk: int, blk: map<int, Block>, a: int, e: int, alloc: bool)
    requires Disjoint(blk)
    requires forall x :: x in blk ==> 8 <= blk[x].size && x + blk[x].size <= brk
    requires a in blk && a < e && (e == brk || e in blk)
    ensures Disjoint(Merged(blk, a, e, alloc))
  {
    var blk' := Merged(blk, a, e, alloc);
    forall x, y | x in blk' && y in blk' && x < y ensures x + blk'[x].size <= y {
      if x != a && y != a {
        assert x in blk && y in blk;
      } else if x == a {
        assert y in blk && !(a <= y < e);
      } else {
        assert x in blk && blk'[x] == blk[x];
      }
    }
  }

  lemma MergePlaced(brk: int, blk: map<int, Block>, a: int, e: int, alloc: bool, x: int)
    requires Tiling(brk, blk)
    requires a in blk && PROLOGUE < a < e && (e == brk || e in blk)
    requires x in Merged(blk, a, e, alloc)
    ensures Placed(brk, Merged(blk, a, e, alloc), x)
  {
    var blk' := Merged(blk, a, e, alloc);
    if x != PROLOGUE {
      MergeEnds(brk, blk, a, e, alloc, x);
    }
    assert Placed(brk, blk, a);
    if e != brk {
      assert Placed(brk, blk, e);
    }
    if x != a {
      assert Placed(brk, blk, x);
      var y := x + blk[x].size;
      if y != brk {
        assert y in blk;
        assert x < a ==> y <= a;
        assert y in blk';
      }
    }
  }

  lemma MergeTiling(brk: int, blk: map<int, Block>, a: int, e: int, alloc: bool)
    requires Tiling(brk, blk)
    requires a in blk && PROLOGUE < a < e && (e == brk || e in blk)
    ensures Tiling(brk, Merged(blk, a, e, alloc))
  {
    var blk' := Merged(blk, a, e, alloc);
    forall x {:trigger Placed(brk, blk', x)} | x in blk' ensures Placed(brk, blk', x) {
      MergePlaced(brk, blk, a, e, alloc, x);
    }
    assert forall x :: x in blk ==> 8 <= blk[x].size && x + blk[x].size <= brk by {
      Bounds(brk, blk);
    }
    MergeEnds(brk, blk, a, e, alloc, brk);
    MergeDisjoint(brk, blk, a, e, alloc);
    assert Disjoint(blk');
    assert AllPlaced(brk, blk');
    assert Tiling(brk, blk');
  }

  lemma MergeEnds(brk: int, blk: map<int, Block>, a: int, e: int, alloc: bool, x: int)
    requires Tiling(brk, blk)
    requires a in blk && PROLOGUE < a < e && (e == brk || e in blk)
    requires x == brk || x in Merged(blk, a, e, alloc)
    requires x != PROLOGUE
    ensures Ends(Merged(blk, a, e, alloc), x)
  {
    var blk' := Merged(blk, a, e, alloc);
    Bounds(brk, blk);
    if x == e {
      assert a in blk' && a + blk'[a].size == x;
    } else {
      if x != brk {
        assert Placed(brk, blk, x);
      }
      var p :| p in blk && p + blk[p].size == x;
      assert p in blk' && p != a;
    }
  }

  lemma MergeTags(m: seq<byte>, n: seq<byte>, brk: int, blk: map<int, Block>, a: int, e: int, alloc: bool)
    requires Tiling(brk, blk) && Tagged(m, brk, blk)
    requires a in blk && PROLOGUE < a < e && (e == brk || e in blk)
    requires SameOutside(m, n, a - 4, e - 4)
    requires Word(n, a - 4) == Word(n, e - 8) == Tag(Block(e - a, alloc))
    ensures Tagged(n, brk, Merged(blk, a, e, alloc))
  {
    hide Word, SameOutside, Tag;
    var blk' := Merged(blk, a, e, alloc);
    Bounds(brk, blk);
    forall x {:trigger TagOk(n, blk', x)} | x in blk' ensures TagOk(n, blk', x) {
      if x != a {
        assert TagOk(m, blk, x);
        WordSame(m, n, a - 4, e - 4, x - 4);
        WordSame(m, n, a - 4, e - 4, x + blk[x].size - 8);
      }
    }
    WordSame(m, n, a - 4, e - 4, brk - 4);
    assert Tagged(n, brk, blk');
  }

  lemma CutPlaced(brk: int, blk: map<int, Block>, a: int, k: int, left: bool, right: bool, x: int)
    requires Tiling(brk, blk)
    requires a in blk && PROLOGUE < a && 8 <= k <= blk[a].size - 8
    requires x in Cut(blk, a, k, left, right)
    ensures Placed(brk, Cut(blk, a, k, left, right), x)
  {
    if x != PROLOGUE {
      CutEnds(brk, blk, a, k, left, right, x);
    }
    assert Placed(brk, blk, a);
    if x != a && x != a + k {
      assert Placed(brk, blk, x);
    }
  }

  lemma CutDisjoint(brk: int, blk: map<int, Block>, a: int, k: int, left: bool, right: bool)
    requires Tiling(brk, blk)
    requires a in blk && 8 <= k <= blk[a].size - 8
    ensures Disjoint(Cut(blk, a, k, left, right))
  {
    Bounds(brk, blk);
  }

  lemma CutTiling(brk: int, blk: map<int, Block>, a: int, k: int, left: bool, right: bool)
    requires Tiling(brk, blk)
    requires a in blk && PROLOGUE < a && 8 <= k <= blk[a].size - 8
    ensures Tiling(brk, Cut(blk, a, k, left, right))
  {
    var blk' := Cut(blk, a, k, left, right);
    forall x {:trigger Placed(brk, blk', x)} | x in blk' ensures Placed(brk, blk', x) {
      CutPlaced(brk, blk, a, k, left, right, x);
    }
    CutEnds(brk, blk, a, k, left, right, brk);
    CutDisjoint(brk, blk, a, k, left, right);
    assert Disjoint(blk');
    assert AllPlaced(brk, blk');
    assert Tiling(brk, blk');
  }

  lemma CutEnds(brk: int, blk: map<int, Block>, a: int, k: int, left: bool, right: bool, x: int)
    requires Tiling(brk, blk)
    requires a in blk && PROLOGUE < a && 8 <= k <= blk[a].size - 8
    requires x == brk || x in Cut(blk, a, k, left, right)
    requires x != PROLOGUE
    ensures Ends(Cut(blk, a, k, left, right), x)
  {
    var blk' := Cut(blk, a, k, left, right);
    Bounds(brk, blk);
    if x == a + k {
      assert a in blk' && a + blk'[a].size == x;
    } else {
      if x != brk {
        assert Placed(brk, blk, x);
      }
      var p :| p in blk && p + blk[p].size == x;
      var p' := if p == a then a + k else p;
      assert p' in blk' && p' + blk'[p'].size == x;
    }
  }

  lemma CutTags(m: seq<byte>, n: seq<byte>, brk: int, blk: map<int, Block>, a: int, k: int, left: bool, right: bool)
    requires Tiling(brk, blk) && Tagged(m, brk, blk)
    requires a in blk && PROLOGUE < a && 8 <= k <= blk[a].size - 8
    requires var e := a + blk[a].size;
      && SameOutside(m, n, a - 4, e - 4)
      && Word(n, a - 4) == Word(n, a + k - 8) == Tag(Block(k, left))
      && Word(n, a + k - 4) == Word(n, e - 8) == Tag(Block(e - a - k, right))
    ensures Tagged(n, brk, Cut(blk, a, k, left, right))
  {
    hide Word, SameOutside, Tag;
    var e := a + blk[a].size;
    var blk' := Cut(blk, a, k, left, right);
    Bounds(brk, blk);
    forall x {:trigger TagOk(n, blk', x)} | x in blk' ensures TagOk(n, blk', x) {
      if x != a && x != a + k {
        assert TagOk(m, blk, x);
        WordSame(m, n, a - 4, e - 4, x - 4);
        WordSame(m, n, a - 4, e - 4, x + blk[x].size - 8);
      }
    }
    WordSame(m, n, a - 4, e - 4, brk - 4);
    assert Tagged(n, brk, blk');
  }

  lemma GrowEnds(brk: int, blk: map<int, Block>, k: int, x: int)
    requires Tiling(brk, blk) && 8 <= k
    requires (x in blk && x != PROLOGUE) || x == brk || x == brk + k
    ensures Ends(blk[brk := Block(k, false)], x)
  {
    var blk' := blk[brk := Block(k, false)];
    Bounds(brk, blk);
    if x == brk + k {
      assert brk in blk' && brk + blk'[brk].size == x;
    } else {
      if x != brk {
        assert Placed(brk, blk, x);
      }
      var p :| p in blk && p + blk[p].size == x;
      assert p in blk' && p + blk'[p].size == x;
    }
  }

  lemma GrowTiling(brk: int, blk: map<int, Block>, k: int)
    requires Tiling(brk, blk) && 8 <= k
    ensures Tiling(brk + k, blk[brk := Block(k, false)])
  {
    var blk' := blk[brk := Block(k, false)];
    Bounds(brk, blk);
    forall x {:trigger Placed(brk + k, blk', x)} | x in blk' ensures Placed(brk + k, blk', x) {
      if x != PROLOGUE {
        GrowEnds(brk, blk, k, x);
      }
      if x != brk {
        assert Placed(brk, blk, x);
      }
    }
    GrowEnds(brk, blk, k, brk + k);
    assert AllPlaced(brk + k, blk');
    assert Disjoint(blk');
    assert Tiling(brk + k, blk');
  }

  lemma GrowTags(m: seq<byte>, n: seq<byte>, brk: int, blk: map<int, Block>, k: int)
    requires Tiling(brk, blk) && Tagged(m, brk, blk)
    requires 8 <= k
    requires SameOutside(m, n, brk - 4, brk + k)
    requires Word(n, brk - 4) == Word(n, brk + k - 8) == Tag(Block(k, false))
    requires Word(n, brk + k - 4) == 1
    ensures Tagged(n, brk + k, blk[brk := Block(k, false)])
  {
    var blk' := blk[brk := Block(k, false)];
    Bounds(brk, blk);
    forall x {:trigger TagOk(n, blk', x)} | x in blk' ensures TagOk(n, blk', x) {
      if x != brk {
        assert TagOk(m, blk, x);
        WordSame(m, n, brk - 4, brk + k, x - 4);
        WordSame(m, n, brk - 4, brk + k, x + blk[x].size - 8);
      }
    }
  }
}
