/** eval_mm_valid: the driver that replays a trace of requests against the allocator and checks every
    answer. The allocator passes every trace, or runs out of memory. */
module Driver {
  import opened Bytes
  import opened HeapLayout
  import opened HeapState
  import opened Allocator

  datatype Request = Alloc(index: nat, size: nat) | Realloc(index: nat, size: nat) | Free(index: nat)

  /** How a replay ends; `op` is the position of the failing request. */
  datatype Verdict =
    | Passed
    | InitFailed
    | MallocFailed(op: nat)
    | ReallocFailed(op: nat)
    | BadRange(op: nat)
    | Corrupted(op: nat)

  /** A payload handed out, from its first to its last byte. */
  datatype Range = Range(lo: int, hi: int)

  /** Where the block of an index is, and how many bytes were asked for. */
  datatype Slot = Slot(ptr: int, size: int)

  /** Requests name an index that is free for Alloc, in use otherwise; sizes are `int`s. */
  ghost predicate WellFormed(ops: seq<Request>, used: set<nat>)
    decreases |ops|
  {
    ops == [] ||
    match ops[0]
    case Alloc(i, size) => i !in used && size < 0x8000_0000 && WellFormed(ops[1..], used + {i})
    case Realloc(i, size) => i in used && size < 0x8000_0000 && WellFormed(ops[1..], used)
    case Free(i) => i in used && WellFormed(ops[1..], used - {i})
  }

  /** A slot has a live block that is filled with the low byte of its index. */
  ghost predicate SlotOk(live: map<int, seq<byte>>, blocks: map<nat, Slot>, i: nat)
    requires i in blocks
  {
    var s := blocks[i];
    && s.ptr in live && 0 <= s.size <= |live[s.ptr]|
    && forall j :: 0 <= j < s.size ==> live[s.ptr][j] == i % 256
  }

  /** The driver's tables against the live payloads: no two slots share a block, the ranges are those of slots,
      and no two ranges overlap. */
  ghost predicate Tables(live: map<int, seq<byte>>, blocks: map<nat, Slot>, ranges: seq<Range>) {
    && (forall i {:trigger SlotOk(live, blocks, i)} :: i in blocks ==> SlotOk(live, blocks, i))
    && (forall i, j :: i in blocks && j in blocks && blocks[i].ptr == blocks[j].ptr ==> i == j)
    && (forall r {:trigger RangeOf(blocks, r)} :: r in ranges ==> RangeOf(blocks, r))
    && Disjoint(ranges)
  }

  ghost predicate RangeOf(blocks: map<nat, Slot>, r: Range) {
    exists i :: i in blocks && blocks[i].ptr == r.lo && blocks[i].size == r.hi - r.lo + 1
  }

  predicate Apart(a: Range, b: Range) { a.hi < b.lo || b.hi < a.lo }

  ghost predicate ApartFromAll(ranges: seq<Range>, r: Range) { forall p :: p in ranges ==> Apart(p, r) }

  /** The ranges are not empty and pairwise apart. */
  ghost predicate Disjoint(ranges: seq<Range>) {
    && (forall j :: 0 <= j < |ranges| ==> ranges[j].lo <= ranges[j].hi)
    && (forall j, k :: 0 <= j < k < |ranges| ==> Apart(ranges[j], ranges[k]))
  }

  /** Neither end of [lo, hi] lies in a recorded range. */
  ghost predicate Clear(ranges: seq<Range>, lo: int, hi: int) {
    forall p :: p in ranges ==> !(p.lo <= lo <= p.hi) && !(p.lo <= hi <= p.hi)
  }

  /** add_range: check a new payload against alignment, the heap and the other ranges, and record it. */
  method AddRange(ranges: seq<Range>, lo: int, size: nat, brk: int) returns (ok: bool, ranges': seq<Range>)
    ensures ok <==> Multiple8(lo) && 0 <= lo < brk && 0 <= lo + size - 1 < brk && Clear(ranges, lo, lo + size - 1)
    ensures ranges' == if ok then [Range(lo, lo + size - 1)] + ranges else ranges
  {
    var hi := lo + size - 1;
    ranges' := ranges;
    if lo % 8 != 0 || lo < 0 || lo >= brk || hi < 0 || hi >= brk {
      return false, ranges;
    }
    for k := 0 to |ranges|
      invariant Clear(ranges[..k], lo, hi)
    {
      var p := ranges[k];
      assert ranges[..k + 1] == ranges[..k] + [p];
      if (lo >= p.lo && lo <= p.hi) || (hi >= p.lo && hi <= p.hi) {
        assert p in ranges;
        return false, ranges;
      }
    }
    assert ranges[..|ranges|] == ranges;
    ok, ranges' := true, [Range(lo, hi)] + ranges;
  }

  /** remove_range: drop the first range that starts at `lo`. */
  method RemoveRange(ranges: seq<Range>, lo: int) returns (ranges': seq<Range>)
    ensures exists k :: 0 <= k <= |ranges| && Dropped(ranges, ranges', lo, k)
  {
    var k := 0;
    while k < |ranges| && ranges[k].lo != lo
      invariant 0 <= k <= |ranges|
      invariant forall j :: 0 <= j < k ==> ranges[j].lo != lo
    {
      k := k + 1;
    }
    ranges' := if k < |ranges| then ranges[..k] + ranges[k + 1..] else ranges;
    assert Dropped(ranges, ranges', lo, k);
  }

  ghost predicate Dropped(ranges: seq<Range>, ranges': seq<Range>, lo: int, k: int) {
    && 0 <= k <= |ranges| && (forall j :: 0 <= j < k ==> ranges[j].lo != lo)
    && if k < |ranges| then ranges[k].lo == lo && ranges' == ranges[..k] + ranges[k + 1..] else ranges' == ranges
  }

  /** What the two tests of add_range leave open: a new range is apart from all recorded ones exactly when it
      passes them and none of the recorded ones lies strictly inside it. */
  lemma ClearGap(ranges: seq<Range>, lo: int, hi: int)
    requires lo <= hi && forall p :: p in ranges ==> p.lo <= p.hi
    ensures ApartFromAll(ranges, Range(lo, hi)) <==>
      Clear(ranges, lo, hi) && forall p :: p in ranges ==> !(lo < p.lo && p.hi < hi)
  {
  }

  /** Such a range does slip through: [0, 23] is accepted beside [8, 15]. */
  lemma ContainedSlipsThrough()
    ensures var kept, added := Range(8, 15), Range(0, 23);
      Clear([kept], added.lo, added.hi) && !Apart(kept, added) && !Disjoint([added, kept])
  {
    var both := [Range(0, 23), Range(8, 15)];
    assert !Apart(both[0], both[1]);
  }

  lemma DroppedDisjoint(ranges: seq<Range>, ranges': seq<Range>, lo: int)
    requires Disjoint(ranges)
    requires exists k :: 0 <= k <= |ranges| && Dropped(ranges, ranges', lo, k)
    ensures Disjoint(ranges')
    ensures forall r :: r in ranges' <==> r in ranges && r.lo != lo
  {
    var k :| 0 <= k <= |ranges| && Dropped(ranges, ranges', lo, k);
    if k < |ranges| {
      var a, b := ranges[..k], ranges[k + 1..];
      assert ranges == a + [ranges[k]] + b;
      forall r: Range | r in a || r in b
        ensures r.lo != lo
      {
        if r in b {
          var j :| 0 <= j < |b| && b[j] == r;
          assert Apart(ranges[k], ranges[k + 1 + j]);
        } else {
          var j :| 0 <= j < k && a[j] == r;
          assert Apart(ranges[j], ranges[k]);
        }
      }
    } else {
      forall r | r in ranges ensures r.lo != lo {
        var j :| 0 <= j < |ranges| && ranges[j] == r;
      }
    }
  }

  /** A payload apart from the live payloads of all slots gets a clear range, and one that no recorded range
      lies inside of. */
  lemma RangeIsClear(m: seq<byte>, brk: int, blk: map<int, Block>, blocks: map<nat, Slot>, ranges: seq<Range>,
                     p: int, size: nat)
    requires Tiling(brk, blk) && Aligned(brk, blk) && brk <= |m|
    requires forall i :: i in blocks ==>
      blocks[i].ptr in Contents(m, blk) && blocks[i].size <= |Contents(m, blk)[blocks[i].ptr]| && blocks[i].ptr != p
    requires forall r {:trigger RangeOf(blocks, r)} :: r in ranges ==> RangeOf(blocks, r)
    requires p in Contents(m, blk) && 0 < size <= |Contents(m, blk)[p]|
    ensures Multiple8(p) && 0 <= p < brk && 0 <= p + size - 1 < brk
    ensures Clear(ranges, p, p + size - 1) && ApartFromAll(ranges, Range(p, p + size - 1))
  {
    LiveBounds(m, brk, blk, p);
    assert BlockAligned(blk, p);
    forall r | r in ranges
      ensures !(r.lo <= p <= r.hi) && !(r.lo <= p + size - 1 <= r.hi) && Apart(r, Range(p, p + size - 1))
    {
      assert RangeOf(blocks, r);
      var i :| i in blocks && blocks[i].ptr == r.lo && blocks[i].size == r.hi - r.lo + 1;
      LiveApart(m, brk, blk, p, r.lo);
    }
  }

  /** memset on the first `n` bytes of a live payload. */
  method Memset(h: Heap, p: int, v: byte, n: nat)
    requires h.Valid() && p in h.Live() && n <= |h.Live()[p]|
    modifies h.mem
    ensures h.Valid()
    ensures p in h.Live() && h.Live() == old(h.Live())[p := h.Live()[p]]
    ensures |h.Live()[p]| == |old(h.Live())[p]| && forall j :: 0 <= j < n ==> h.Live()[p][j] == v
  {
    hide Word, SizeOf, AllocOf, Contents;
    ghost var m := h.mem[..];
    LiveBounds(m, h.brk, h.blk, p);
    for i := 0 to n
      invariant SameOutside(m, h.mem[..], p, p + i)
      invariant h.mem[..][p..p + i] == seq(i, _ => v)
    {
      h.mem[p + i] := v;
      assert h.mem[..][p..p + i + 1] == h.mem[..][p..p + i] + [v];
    }
    WriteConsistent(m, h.mem[..], h.heads[..], h.brk, h.blk, h.nodes, h.stamp, p, p, p + n);
    Overwritten(m, h.mem[..], h.brk, h.blk, p, n, h.mem[..][p..p + n]);
  }

  /** One table entry more, whose payload was just filled. */
  lemma AddedSlot(c: map<int, seq<byte>>, d: map<int, seq<byte>>, blocks: map<nat, Slot>, ranges: seq<Range>,
                  i: nat, p: int, size: nat)
    requires forall j {:trigger SlotOk(c, blocks, j)} :: j in blocks ==> SlotOk(c, blocks, j) && blocks[j].ptr != p
    requires forall j, k :: j in blocks && k in blocks && blocks[j].ptr == blocks[k].ptr ==> j == k
    requires forall r {:trigger RangeOf(blocks, r)} :: r in ranges ==> RangeOf(blocks, r)
    requires Disjoint(ranges) && ApartFromAll(ranges, Range(p, p + size - 1)) && size > 0 && i !in blocks
    requires p in d && (forall x :: x in c && x != p ==> x in d && d[x] == c[x])
    requires size <= |d[p]| && forall j :: 0 <= j < size ==> d[p][j] == i % 256
    ensures Tables(d, blocks[i := Slot(p, size)], [Range(p, p + size - 1)] + ranges)
  {
    var blocks', ranges' := blocks[i := Slot(p, size)], [Range(p, p + size - 1)] + ranges;
    forall j {:trigger SlotOk(d, blocks', j)} | j in blocks' ensures SlotOk(d, blocks', j) {
      if j != i {
        assert SlotOk(c, blocks, j);
      }
    }
    forall j | j in blocks ensures blocks[j].ptr != p {
      assert SlotOk(c, blocks, j);
    }
    forall r {:trigger RangeOf(blocks', r)} | r in ranges' ensures RangeOf(blocks', r) {
      if r in ranges {
        assert RangeOf(blocks, r);
        var j :| j in blocks && blocks[j].ptr == r.lo && blocks[j].size == r.hi - r.lo + 1;
        assert j in blocks' && blocks'[j] == blocks[j];
      } else {
        assert i in blocks' && blocks'[i].ptr == r.lo;
      }
    }
    forall k | 0 < k < |ranges'| ensures Apart(ranges'[0], ranges'[k]) {
      assert ranges'[k] == ranges[k - 1] && ranges[k - 1] in ranges;
    }
    assert Disjoint(ranges');
  }

  /** The tables without one entry and its range. */
  lemma RemovedSlot(c: map<int, seq<byte>>, blocks: map<nat, Slot>, ranges: seq<Range>, ranges': seq<Range>, i: nat)
    requires Tables(c, blocks, ranges) && i in blocks
    requires exists k :: 0 <= k <= |ranges| && Dropped(ranges, ranges', blocks[i].ptr, k)
    ensures Tables(c - {blocks[i].ptr}, blocks - {i}, ranges')
    ensures forall j :: j in blocks - {i} ==> blocks[j].ptr != blocks[i].ptr
  {
    var d, blocks' := c - {blocks[i].ptr}, blocks - {i};
    DroppedDisjoint(ranges, ranges', blocks[i].ptr);
    forall j {:trigger SlotOk(d, blocks', j)} | j in blocks' ensures SlotOk(d, blocks', j) {
      assert SlotOk(c, blocks, j);
    }
    forall r {:trigger RangeOf(blocks', r)} | r in ranges' ensures RangeOf(blocks', r) {
      assert RangeOf(blocks, r);
      var j :| j in blocks && blocks[j].ptr == r.lo && blocks[j].size == r.hi - r.lo + 1;
      assert j in blocks' && blocks'[j] == blocks[j];
    }
  }

  /** The ALLOC case of the replay. */
  method DoAlloc(h: Heap, blocks: map<nat, Slot>, ranges: seq<Range>, i: nat, size: nat, op: nat)
    returns (v: Verdict, blocks': map<nat, Slot>, ranges': seq<Range>)
    requires h.Valid() && Tables(h.Live(), blocks, ranges) && i !in blocks && size < 0x8000_0000
    modifies h, h.mem, h.heads
    ensures h.Valid()
    ensures v == Passed || v == MallocFailed(op)
    ensures v == Passed ==> Tables(h.Live(), blocks', ranges') && blocks'.Keys == blocks.Keys + {i}
    ensures v == MallocFailed(op) ==> size == 0 || Exhausted(h, size)
  {
    hide Word, SizeOf, AllocOf, Contents;
    blocks', ranges' := blocks, ranges;
    ghost var c := h.Live();
    SmallHonest(h.brk, size, h.mem.Length);
    var p := h.Malloc(size);
    if p == 0 {
      return MallocFailed(op), blocks, ranges;
    }
    forall j {:trigger SlotOk(c, blocks, j)} | j in blocks
      ensures blocks[j].ptr != p && blocks[j].ptr in h.Live() && h.Live()[blocks[j].ptr] == c[blocks[j].ptr]
    {
      assert SlotOk(c, blocks, j);
    }
    var ok;
    forall j | j in blocks
      ensures blocks[j].ptr in h.Live() && blocks[j].size <= |h.Live()[blocks[j].ptr]| && blocks[j].ptr != p
    {
      assert SlotOk(c, blocks, j);
    }
    RangeIsClear(h.mem[..], h.brk, h.blk, blocks, ranges, p, size);
    ok, ranges' := AddRange(ranges, p, size, h.brk);
    if !ok {
      return BadRange(op), blocks, ranges';
    }
    Memset(h, p, i % 256, size);
    AddedSlot(c, h.Live(), blocks, ranges, i, p, size);
    v, blocks' := Passed, blocks[i := Slot(p, size)];
  }

  /** No block is big enough for `size`, and the heap cannot grow by what the request needs. */
  ghost predicate Exhausted(h: Heap, size: nat)
    reads h
  {
    NoRoom(h.brk, h.blk, size, h.mem.Length)
  }

  /** Whether the first `n` bytes of a live payload are all `v`. */
  method CheckKept(h: Heap, p: int, v: byte, n: nat) returns (ok: bool)
    requires h.Valid() && p in h.Live() && n <= |h.Live()[p]|
    ensures ok <==> forall j :: 0 <= j < n ==> h.Live()[p][j] == v
  {
    hide Word, SizeOf, AllocOf, Contents;
    LiveBounds(h.mem[..], h.brk, h.blk, p);
    for j := 0 to n
      invariant forall k :: 0 <= k < j ==> h.Live()[p][k] == v
    {
      assert h.mem[p + j] == h.Live()[p][j];
      if h.mem[p + j] != v {
        return false;
      }
    }
    ok := true;
  }

  lemma SmallExtension(m: seq<byte>, brk: int, blk: map<int, Block>, b: int, size: nat)
    requires Tiling(brk, blk) && Aligned(brk, blk) && Tagged(m, brk, blk)
    requires b in blk && 0 <= blk[b].size && size < 0x8000_0000
    ensures Extension(blk, b, BlockSize(size)) < 0x1_0000_0000
  {
    ReadAhead(m, brk, blk, b, b + blk[b].size);
    hide Tiling, Aligned, Tagged, Word, SizeOf;
    assert BlockSize(size) < 0x8000_0010 && FreeAfter(blk, b) >= 0;
  }

  /** The REALLOC case of the replay. */
  method DoRealloc(h: Heap, blocks: map<nat, Slot>, ranges: seq<Range>, i: nat, size: nat, op: nat)
    returns (v: Verdict, blocks': map<nat, Slot>, ranges': seq<Range>)
    requires h.Valid() && Tables(h.Live(), blocks, ranges) && i in blocks && size < 0x8000_0000
    modifies h, h.mem, h.heads
    ensures h.Valid()
    ensures v == Passed || v == ReallocFailed(op)
    ensures v == Passed ==> Tables(h.Live(), blocks', ranges') && blocks'.Keys == blocks.Keys
    ensures v == ReallocFailed(op) ==> size == 0 || Exhausted(h, size)
  {
    hide Word, SizeOf, AllocOf, Contents, Settled, Tiling, Tagged, Stored, Resized, Disjoint, ApartFromAll, Clear,
      Stays, BreakAfterRealloc, BreakAfterMalloc, Dropped;
    blocks', ranges' := blocks, ranges;
    ghost var c := h.Live();
    assert SlotOk(c, blocks, i);
    var oldp := blocks[i].ptr;
    LiveAt(h.mem[..], h.brk, h.blk, oldp);
    SmallHonest(h.brk, size, h.mem.Length);
    SmallExtension(h.mem[..], h.brk, h.blk, oldp, size);
    var newp := h.Realloc(oldp, size);
    if newp == 0 {
      return ReallocFailed(op), blocks, ranges;
    }
    ghost var d, rest := h.Live(), blocks - {i};
    ranges' := RemoveRange(ranges, oldp);
    RemovedSlot(c, blocks, ranges, ranges', i);
    ghost var ranges0 := ranges';
    MovedRest(c, d, rest, ranges', oldp, newp, size);
    RangeIsClear(h.mem[..], h.brk, h.blk, rest, ranges', newp, size);
    var ok;
    ok, ranges' := AddRange(ranges', newp, size, h.brk);
    if !ok {
      return BadRange(op), blocks, ranges';
    }
    var oldsize := if size < blocks[i].size then size else blocks[i].size;
    var kept := CheckKept(h, newp, i % 256, oldsize);
    if !kept {
      return Corrupted(op), blocks, ranges';
    }
    Memset(h, newp, i % 256, size);
    AddedSlot(d, h.Live(), rest, ranges0, i, newp, size);
    v, blocks' := Passed, blocks[i := Slot(newp, size)];
    assert blocks' == rest[i := Slot(newp, size)];
  }

  /** The other slots after a block was resized: none of them is where it was or where it went. */
  lemma MovedRest(c: map<int, seq<byte>>, d: map<int, seq<byte>>, rest: map<nat, Slot>, ranges: seq<Range>,
                  oldp: int, newp: int, size: nat)
    requires Resized(c, d, oldp, newp, size) && Tables(c - {oldp}, rest, ranges)
    requires forall j :: j in rest ==> rest[j].ptr != oldp
    ensures forall j {:trigger SlotOk(d, rest, j)} :: j in rest ==> SlotOk(d, rest, j)
    ensures forall j :: j in rest ==>
      rest[j].ptr in d && rest[j].size <= |d[rest[j].ptr]| && rest[j].ptr != newp
  {
    forall j {:trigger SlotOk(d, rest, j)} | j in rest
      ensures SlotOk(d, rest, j) && rest[j].ptr != newp
    {
      assert SlotOk(c - {oldp}, rest, j);
    }
    forall j | j in rest
      ensures rest[j].ptr in d && rest[j].size <= |d[rest[j].ptr]| && rest[j].ptr != newp
    {
      assert SlotOk(d, rest, j);
      assert SlotOk(c - {oldp}, rest, j);
    }
  }

  /** The FREE case of the replay. */
  method DoFree(h: Heap, blocks: map<nat, Slot>, ranges: seq<Range>, i: nat)
    returns (blocks': map<nat, Slot>, ranges': seq<Range>)
    requires h.Valid() && Tables(h.Live(), blocks, ranges) && i in blocks
    modifies h, h.mem, h.heads
    ensures h.Valid()
    ensures Tables(h.Live(), blocks', ranges') && blocks'.Keys == blocks.Keys - {i}
  {
    hide Word, SizeOf, AllocOf, Contents;
    assert SlotOk(h.Live(), blocks, i);
    var p := blocks[i].ptr;
    ranges' := RemoveRange(ranges, p);
    RemovedSlot(h.Live(), blocks, ranges, ranges', i);
    h.Free(p);
    blocks' := blocks - {i};
  }

  /** eval_mm_valid: the checks never fail; a replay passes or the allocator has no memory left. After one that
      passes, the payloads in the tables are live, filled as recorded, and pairwise apart. */
  method EvalMmValid(h: Heap, ops: seq<Request>)
    returns (v: Verdict, blocks: map<nat, Slot>, ranges: seq<Range>)
    requires h.brk == 0 && h.mem.Length < 0x8000_0000 && h.heads.Length == 16 && (h.mem as object) != h.heads
    requires WellFormed(ops, {})
    modifies h, h.mem, h.heads
    ensures v.Passed? || v.InitFailed? || v.MallocFailed? || v.ReallocFailed?
    ensures v.InitFailed? <==> h.mem.Length < 144 + INITCHUNKSIZE
    ensures !v.InitFailed? ==> h.Valid()
    ensures v.Passed? ==> Tables(h.Live(), blocks, ranges)
    ensures v.MallocFailed? ==>
      v.op < |ops| && ops[v.op].Alloc? && (ops[v.op].size == 0 || Exhausted(h, ops[v.op].size))
    ensures v.ReallocFailed? ==>
      v.op < |ops| && ops[v.op].Realloc? && (ops[v.op].size == 0 || Exhausted(h, ops[v.op].size))
  {
    var r := h.Init();
    blocks, ranges := map[], [];
    if r < 0 {
      return InitFailed, blocks, ranges;
    }
    assert blocks.Keys == {};
    for i := 0 to |ops|
      invariant h.Valid() && Tables(h.Live(), blocks, ranges)
      invariant WellFormed(ops[i..], blocks.Keys)
    {
      assert ops[i..][0] == ops[i] && ops[i..][1..] == ops[i + 1..];
      match ops[i]
      case Alloc(index, size) =>
        v, blocks, ranges := DoAlloc(h, blocks, ranges, index, size, i);
        if v != Passed {
          return;
        }
      case Realloc(index, size) =>
        v, blocks, ranges := DoRealloc(h, blocks, ranges, index, size, i);
        if v != Passed {
          return;
        }
      case Free(index) =>
        blocks, ranges := DoFree(h, blocks, ranges, index);
    }
    v := Passed;
  }
}
